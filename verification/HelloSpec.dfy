/** The bytes of a ClientHello as the client writes them, with the lengths it
    works out beforehand, and as the server reads them under its nested
    limits. Bit masks are sets of bit numbers. */
module HelloSpec {
  import opened Base128
  import opened Wrappers

  type Bytes = seq<byte>

  // ----- what is sent -----

  function W8(n: nat): Bytes { [n % 256] }

  function W16(n: nat): Bytes { [n / 256 % 256, n % 256] }

  function W24(n: nat): Bytes { [n / 65536 % 256, n / 256 % 256, n % 256] }

  datatype Hello = Hello(
    version: nat,
    random: Bytes,
    sid: Bytes,
    suites: seq<nat>,
    reneg: nat,
    finished: Bytes,
    name: Bytes,
    logFrag: nat,
    signsRsa: bool,
    signsEcdsa: bool,
    hashes: set<nat>,
    curves: set<nat>,
    protocols: seq<Bytes>,
    minLength: nat)
  {
    /** The ranges of the engine's fields; and the extensions, of which only
        the protocol names can be long, fit their length of two bytes. */
    predicate Valid()
    {
      && version < 0x1_0000 && |random| == 32 && |sid| <= 32
      && |suites| <= 255 && (forall s <- suites :: s < 0x1_0000 && s != 0x00FF)
      && reneg <= 2 && |finished| == 12 && |name| <= 255
      && 9 <= logFrag <= 14
      && (forall h <- hashes :: 2 <= h <= 6) && (forall c <- curves :: c < 32)
      && (forall p <- protocols :: |p| <= 255) && ExtLength(this) < 0x1_0000
      && minLength < 0x1_0000
    }
  }

  function Names(protocols: seq<Bytes>): nat
  {
    if protocols == [] then 0 else 1 + |protocols[0]| + Names(protocols[1..])
  }

  /** The supported hash functions in the client's order of preference. */
  const PREFERENCE: seq<nat> := [4, 3, 5, 6, 2]

  function HashPairs(hashes: set<nat>, sign: nat, order: seq<nat>): Bytes
  {
    if order == [] then [] else
    (if order[0] in hashes then W8(order[0]) + W8(sign) else []) + HashPairs(hashes, sign, order[1..])
  }

  /** Curve identifiers from i on, in ascending order. */
  function CurveIds(curves: set<nat>, i: nat): Bytes
    requires i <= 32
    decreases 32 - i
  {
    if i == 32 then [] else (if i in curves then W16(i) else []) + CurveIds(curves, i + 1)
  }

  function NameList(protocols: seq<Bytes>): Bytes
  {
    if protocols == [] then [] else W8(|protocols[0]|) + protocols[0] + NameList(protocols[1..])
  }

  function SuiteList(suites: seq<nat>): Bytes
  {
    if suites == [] then [] else W16(suites[0]) + SuiteList(suites[1..])
  }

  // The lengths of the extensions, zero for one that is not sent.

  function RenegLength(h: Hello): nat
  {
    if h.reneg != 0 then (h.reneg - 1) * 17 else 5
  }

  function SniLength(h: Hello): nat { if h.name == [] then 0 else |h.name| + 9 }

  function FragLength(h: Hello): nat { if h.logFrag == 14 then 0 else 5 }

  function SignaturesLength(h: Hello): nat
  {
    var total := (if h.signsRsa then |h.hashes| else 0) + (if h.signsEcdsa then |h.hashes| else 0);
    if total != 0 then total * 2 + 6 else 0
  }

  function CurvesLength(h: Hello): nat { if h.curves == {} then 0 else |h.curves| * 2 + 6 }

  function PointsLength(h: Hello): nat { if h.curves == {} then 0 else 6 }

  function AlpnLength(h: Hello): nat { if h.protocols == [] then 0 else 6 + Names(h.protocols) }

  /** Without the padding. */
  function OwnLength(h: Hello): nat
  {
    RenegLength(h) + SniLength(h) + FragLength(h) + SignaturesLength(h) + CurvesLength(h) + PointsLength(h)
    + AlpnLength(h)
  }

  function FixedLength(h: Hello): nat { 39 + |h.sid| + |h.suites| * 2 }

  /** The padding that the client adds, if it adds any. */
  function Padding(h: Hello): Option<nat>
  {
    var base := FixedLength(h) + if OwnLength(h) != 0 then 2 + OwnLength(h) else 0;
    if h.minLength > 0 && base < h.minLength then
      var diff := h.minLength - base - (if OwnLength(h) == 0 then 2 else 0) - 4;
      Some(if diff < 0 then 0 else diff)
    else None
  }

  /** All extensions, as the client computes it. */
  function ExtLength(h: Hello): nat
  {
    match Padding(h)
    case None => OwnLength(h)
    case Some(pad) => OwnLength(h) + (if OwnLength(h) == 0 then 2 else 0) + 4 + pad
  }

  function MessageLength(h: Hello): nat
  {
    FixedLength(h) + if ExtLength(h) != 0 then 2 + ExtLength(h) else 0
  }

  function Zeros(n: nat): Bytes { seq(n, _ => 0) }

  function RenegBytes(h: Hello): Bytes
    requires h.reneg <= 2
  {
    if RenegLength(h) == 0 then [] else
    var n := RenegLength(h) - 4;
    W16(0xFF01) + W16(n) + W8(n - 1) + h.finished[..if n - 1 <= |h.finished| then n - 1 else |h.finished|]
  }

  function SniBytes(h: Hello): Bytes
  {
    if h.name == [] then [] else
    W16(0) + W16(SniLength(h) - 4) + W16(SniLength(h) - 6) + W8(0) + W16(|h.name|) + h.name
  }

  function FragBytes(h: Hello): Bytes
    requires 9 <= h.logFrag
  {
    if h.logFrag == 14 then [] else W16(1) + W16(1) + W8(h.logFrag - 8)
  }

  function PairBytes(h: Hello): Bytes
  {
    (if h.signsEcdsa then HashPairs(h.hashes, 3, PREFERENCE) else [])
    + (if h.signsRsa then HashPairs(h.hashes, 1, PREFERENCE) else [])
  }

  function SignaturesBytes(h: Hello): Bytes
  {
    if SignaturesLength(h) == 0 then [] else
    W16(0x000D) + W16(SignaturesLength(h) - 4) + W16(SignaturesLength(h) - 6) + PairBytes(h)
  }

  /** Curve25519 goes first. */
  function CurveBytes(h: Hello): Bytes
  {
    (if 29 in h.curves then W16(29) else []) + CurveIds(h.curves - {29}, 0)
  }

  function CurvesBytes(h: Hello): Bytes
  {
    if h.curves == {} then [] else
    W16(0x000A) + W16(CurvesLength(h) - 4) + W16(CurvesLength(h) - 6) + CurveBytes(h)
  }

  function PointsBytes(h: Hello): Bytes
  {
    if h.curves == {} then [] else W16(0x000B) + W16(2) + W16(0x0100)
  }

  function AlpnBytes(h: Hello): Bytes
  {
    if h.protocols == [] then [] else
    W16(0x0010) + W16(AlpnLength(h) - 4) + W16(AlpnLength(h) - 6) + NameList(h.protocols)
  }

  function PaddingBytes(h: Hello): Bytes
  {
    match Padding(h)
    case None => []
    case Some(pad) => W16(0x0015) + W16(pad) + Zeros(pad)
  }

  function OwnExtensions(h: Hello): Bytes
    requires h.Valid()
  {
    RenegBytes(h) + SniBytes(h) + FragBytes(h) + SignaturesBytes(h) + CurvesBytes(h) + PointsBytes(h) + AlpnBytes(h)
  }

  function HeadBytes(h: Hello): Bytes
  {
    W16(h.version) + h.random + W8(|h.sid|) + h.sid + W16(|h.suites| * 2) + SuiteList(h.suites) + W8(1) + W8(0)
  }

  function Body(h: Hello): Bytes
    requires h.Valid()
  {
    HeadBytes(h) + if ExtLength(h) != 0 then W16(ExtLength(h)) + (OwnExtensions(h) + PaddingBytes(h)) else []
  }

  /** The whole message. */
  function Message(h: Hello): Bytes
    requires h.Valid()
  {
    W8(1) + W24(MessageLength(h)) + Body(h)
  }

  // ----- what is received -----

  /** Bytes to come, and how many of them belong to the element that is being
      read. */
  datatype In = In(data: Bytes, lim: nat)

  datatype Got<+T> =
    | Got(value: T)
    | BadParam | BadFragLength | BadReneg | OversizedId | Unexpected | BadHandshake | Starved
  {
    predicate IsFailure() { !Got? }

    function PropagateFailure<U>(): Got<U>
      requires IsFailure()
    {
      match this
      case BadParam => BadParam
      case BadFragLength => BadFragLength
      case BadReneg => BadReneg
      case OversizedId => OversizedId
      case Unexpected => Unexpected
      case BadHandshake => BadHandshake
      case Starved => Starved
    }

    function Extract(): T
      requires Got?
    {
      value
    }
  }

  function R8(i: In): Got<(nat, In)>
  {
    if i.lim < 1 then BadParam else
    if |i.data| < 1 then Starved else
    Got((i.data[0] as nat, In(i.data[1..], i.lim - 1)))
  }

  function R16(i: In): Got<(nat, In)>
  {
    if i.lim < 2 then BadParam else
    if |i.data| < 2 then Starved else
    Got(((i.data[0] as nat) * 256 + (i.data[1] as nat), In(i.data[2..], i.lim - 2)))
  }

  function RBlob(i: In, n: nat): Got<(Bytes, In)>
  {
    if i.lim < n then BadParam else
    if |i.data| < n then Starved else
    Got((i.data[..n], In(i.data[n..], i.lim - n)))
  }

  function Ignore16(i: In): (r: Got<In>)
    ensures r.Got? ==> r.value.lim <= i.lim
  {
    var (n, j) :- R16(i);
    var (_, k) :- RBlob(j, n);
    Got(k)
  }

  /** An element of n bytes is opened: the limits outside and inside. */
  function Open(i: In, n: nat): Got<(nat, In)>
  {
    if n > i.lim then BadParam else Got((i.lim - n, In(i.data, n)))
  }

  /** A two-byte length, and the element it opens. */
  function Open16(i: In): (r: Got<(nat, In)>)
    ensures r.Got? ==> r.value.0 + r.value.1.lim + 2 == i.lim
  {
    var (n, j) :- R16(i);
    Open(j, n)
  }

  /** The element is closed: it must be used up. */
  function Close(i: In, outer: nat): Got<In>
  {
    if i.lim != 0 then BadParam else Got(In(i.data, outer))
  }

  // Every list below is read until its limit is zero, so that it can always
  // be closed.

  /** The last host name of at most 255 bytes. */
  function ReadNames(i: In, name: Bytes): (r: Got<(Bytes, In)>)
    ensures r.Got? ==> r.value.1.lim == 0
    decreases i.lim
  {
    if i.lim == 0 then Got((name, i)) else
    var (kind, j) :- R8(i);
    if kind != 0 then
      var k :- Ignore16(j);
      ReadNames(k, name)
    else
      var (n, k) :- R16(j);
      var (x, l) :- RBlob(k, n);
      ReadNames(l, if n <= 255 then x else name)
  }

  function ReadSni(i: In, name: Bytes): (r: Got<(Bytes, In)>)
    ensures r.Got? ==> r.value.1.lim <= i.lim
  {
    var (outer, j) :- Open16(i);
    var (outer2, k) :- Open16(j);
    var (x, l) :- ReadNames(k, name);
    var m :- Close(In(l.data, outer2), outer);
    Got((x, m))
  }

  /** The smaller fragment length of the two. */
  function ReadFrag(i: In, own: nat): (r: Got<(nat, In)>)
    ensures r.Got? ==> r.value.1.lim <= i.lim
  {
    var (n, j) :- R16(i);
    if n != 1 then BadFragLength else
    var (v, k) :- R8(j);
    if v == 0 || v >= 5 then BadFragLength else
    Got((if v + 8 < own then v + 8 else own, k))
  }

  /** The new renegotiation state; finished is what the server saved. */
  function ReadReneg(i: In, reneg: nat, finished: Bytes): (r: Got<(nat, In)>)
    ensures r.Got? ==> r.value.1.lim <= i.lim
  {
    var (n, j) :- R16(i);
    if reneg == 0 then
      if n != 1 then BadReneg else
      var (v, k) :- R8(j);
      if v != 0 then BadReneg else Got((2, k))
    else if reneg == 2 then
      if n != 13 then BadReneg else
      var (v, k) :- R8(j);
      if v != 12 then BadReneg else
      var (x, l) :- RBlob(k, 12);
      if x != finished then BadReneg else Got((2, l))
    else BadReneg
  }

  /** The bit of a pair of hash and signature numbers. */
  function PairBit(hash: nat, sign: nat): set<nat>
  {
    if hash == 8 then (if sign <= 15 then {sign + 16} else {})
    else if 2 <= hash <= 6 && (sign == 1 || sign == 3) then {(sign - 1) * 4 + hash}
    else {}
  }

  function ReadPairs(i: In, bits: set<nat>): (r: Got<(set<nat>, In)>)
    ensures r.Got? ==> r.value.1.lim == 0
    decreases i.lim
  {
    if i.lim == 0 then Got((bits, i)) else
    var (hash, j) :- R8(i);
    var (sign, k) :- R8(j);
    ReadPairs(k, bits + PairBit(hash, sign))
  }

  function ReadSignatures(i: In): (r: Got<(set<nat>, In)>)
    ensures r.Got? ==> r.value.1.lim <= i.lim
  {
    var (outer, j) :- Open16(i);
    var (outer2, k) :- Open16(j);
    var (bits, l) :- ReadPairs(k, {});
    var m :- Close(In(l.data, outer2), outer);
    Got((bits, m))
  }

  function ReadIds(i: In, bits: set<nat>): (r: Got<(set<nat>, In)>)
    ensures r.Got? ==> r.value.1.lim == 0
    decreases i.lim
  {
    if i.lim == 0 then Got((bits, i)) else
    var (id, j) :- R16(i);
    ReadIds(j, if id < 32 then bits + {id} else bits)
  }

  function ReadCurves(i: In): (r: Got<(set<nat>, In)>)
    ensures r.Got? ==> r.value.1.lim <= i.lim
  {
    var (outer, j) :- Open16(i);
    var (outer2, k) :- Open16(j);
    var (bits, l) :- ReadIds(k, {});
    var m :- Close(In(l.data, outer2), outer);
    Got((bits, m))
  }

  /** The first place of a name in a list. */
  function Place(name: Bytes, names: seq<Bytes>): Option<nat>
  {
    if names == [] then None else
    if names[0] == name then Some(0) else
    match Place(name, names[1..])
    case None => None
    case Some(k) => Some(k + 1)
  }

  function Lower(a: Option<nat>, b: Option<nat>): Option<nat>
  {
    if a.None? then b else if b.None? then a else if b.value < a.value then b else a
  }

  function ReadProtocols(i: In, own: seq<Bytes>, found: Option<nat>): (r: Got<(Option<nat>, In)>)
    ensures r.Got? ==> r.value.1.lim == 0
    decreases i.lim
  {
    if i.lim == 0 then Got((found, i)) else
    var (n, j) :- R8(i);
    var (x, k) :- RBlob(j, n);
    ReadProtocols(k, own, Lower(found, Place(x, own)))
  }

  /** The protocol that is selected: None if there is none in common. */
  datatype Selection = NotAsked | Asked(index: Option<nat>)

  function ReadAlpn(i: In, own: seq<Bytes>, before: Selection): (r: Got<(Selection, In)>)
    ensures r.Got? ==> r.value.1.lim <= i.lim
  {
    if own == [] then
      var j :- Ignore16(i);
      Got((before, j))
    else
      var (outer, j) :- Open16(i);
      var (outer2, k) :- Open16(j);
      var (found, l) :- ReadProtocols(k, own, None);
      var m :- Close(In(l.data, outer2), outer);
      Got((Asked(found), m))
  }

  /** What the server keeps of the extensions. */
  datatype Seen = Seen(
    name: Bytes,
    logFrag: nat,
    reneg: nat,
    hashes: set<nat>,
    curves: set<nat>,
    selected: Selection)

  /** The server's own settings that reading depends on. */
  datatype Server = Server(logFrag: nat, reneg: nat, finished: Bytes, protocols: seq<Bytes>)

  /** The reader of an extension behind its number. */
  function ReadKind(kind: nat, j: In, sv: Server, seen: Seen): (r: Got<(Seen, In)>)
    ensures r.Got? ==> r.value.1.lim <= j.lim
  {
    match kind
    case 0x0000 =>
      var (x, k) :- ReadSni(j, seen.name);
      Got((seen.(name := x), k))
    case 0x0001 =>
      var (x, k) :- ReadFrag(j, seen.logFrag);
      Got((seen.(logFrag := x), k))
    case 0xFF01 =>
      var (x, k) :- ReadReneg(j, seen.reneg, sv.finished);
      Got((seen.(reneg := x), k))
    case 0x000D =>
      var (x, k) :- ReadSignatures(j);
      Got((seen.(hashes := x), k))
    case 0x000A =>
      var (x, k) :- ReadCurves(j);
      Got((seen.(curves := x), k))
    case 0x0010 =>
      var (x, k) :- ReadAlpn(j, sv.protocols, seen.selected);
      Got((seen.(selected := x), k))
    case _ =>
      var k :- Ignore16(j);
      Got((seen, k))
  }

  function ReadExtension(i: In, sv: Server, seen: Seen): (r: Got<(Seen, In)>)
    ensures r.Got? ==> r.value.1.lim < i.lim
  {
    var (kind, j) :- R16(i);
    ReadKind(kind, j, sv, seen)
  }

  function ReadExtensions(i: In, sv: Server, seen: Seen): (r: Got<(Seen, In)>)
    ensures r.Got? ==> r.value.1.lim == 0
    decreases i.lim
  {
    if i.lim == 0 then Got((seen, i)) else
    var (seen', j) :- ReadExtension(i, sv, seen);
    ReadExtensions(j, sv, seen')
  }

  /** A suite number that announces secure renegotiation. */
  const EMPTY_RENEG_SCSV: nat := 0x00FF

  function ReadSuites(i: In, suites: seq<nat>, reneg: nat): (r: Got<(seq<nat>, In)>)
    ensures r.Got? ==> r.value.1.lim == 0
    decreases i.lim
  {
    if i.lim == 0 then Got((suites, i)) else
    var (s, j) :- R16(i);
    if s == EMPTY_RENEG_SCSV && reneg != 0 then BadReneg else
    ReadSuites(j, suites + [s], reneg)
  }

  function ReadCompressions(i: In, ok: bool): (r: Got<(bool, In)>)
    ensures r.Got? ==> r.value.1.lim == 0
    decreases i.lim
  {
    if i.lim == 0 then Got((ok, i)) else
    var (c, j) :- R8(i);
    ReadCompressions(j, ok || c == 0)
  }

  /** The fields of a ClientHello as the server reads them. */
  datatype Fields = Fields(
    version: nat,
    random: Bytes,
    sid: Bytes,
    suites: seq<nat>,
    compressionOk: bool,
    seen: Seen)

  /** What the server assumes of a client that does not say otherwise: the two
      SHA-1 pairs, and curve P-256. */
  function Defaults(sv: Server): Seen
  {
    Seen([], sv.logFrag, sv.reneg, {2, 10}, {23}, NotAsked)
  }

  /** The cipher suites, and whether no compression is offered. */
  function ReadLists(i: In, sv: Server): Got<((seq<nat>, bool), In)>
  {
    var (outer, j) :- Open16(i);
    var (suites, k) :- ReadSuites(j, [], sv.reneg);
    var (n, l) :- R8(In(k.data, outer));
    var (outer2, m) :- Open(l, n);
    var (ok, o) :- ReadCompressions(m, false);
    Got(((suites, ok), In(o.data, outer2)))
  }

  /** The fields before the extensions. */
  function ReadHead(i: In, sv: Server): Got<(Fields, In)>
  {
    var (version, j) :- R16(i);
    var (random, k) :- RBlob(j, 32);
    var (n, l) :- R8(k);
    if n > 32 then OversizedId else
    var (sid, m) :- RBlob(l, n);
    var ((suites, ok), o) :- ReadLists(m, sv);
    Got((Fields(version, random, sid, suites, ok, Defaults(sv)), o))
  }

  /** The message after its header, of which i.lim is the declared length. */
  function ReadBody(i: In, sv: Server): Got<(Fields, In)>
  {
    var (fields, j) :- ReadHead(i, sv);
    if j.lim == 0 then Got((fields, j)) else
    var (outer, k) :- Open16(j);
    var (seen, l) :- ReadExtensions(k, sv, fields.seen);
    var m :- Close(In(l.data, outer), 0);
    Got((fields.(seen := seen), m))
  }

  function R24(i: In): (r: Got<(nat, In)>)
    ensures r.Got? ==> |r.value.1.data| < |i.data|
  {
    if i.lim < 3 then BadParam else
    if |i.data| < 3 then Starved else
    Got((((i.data[0] as nat) * 256 + (i.data[1] as nat)) * 256 + (i.data[2] as nat), In(i.data[3..], i.lim - 3)))
  }

  /** Type and length of the next message, empty HelloRequests being passed
      over. */
  function ReadHeader(data: Bytes): Got<((nat, nat), Bytes)>
    decreases |data|
  {
    if data == [] then Starved else
    var kind := data[0] as nat;
    var (length, i) :- R24(In(data[1..], 3));
    if kind != 0 then Got(((kind, length), i.data)) else
    if length != 0 then BadHandshake else ReadHeader(i.data)
  }

  /** A ClientHello with its header. */
  function ReadHello(data: Bytes, sv: Server): Got<(Fields, In)>
  {
    var ((kind, length), rest) :- ReadHeader(data);
    if kind != 1 then Unexpected else ReadBody(In(rest, length), sv)
  }
}
