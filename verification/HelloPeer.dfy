/** The ClientHello of any client: whatever it lists, in whatever order, the
    server reads what is there, or refuses it for a reason that can be read off
    the message. */
module HelloPeer {
  import opened Base128
  import opened Wrappers
  import opened HelloSpec
  import opened HelloRoundTrip

  datatype Extension =
    | ServerName(entries: seq<(nat, Bytes)>)
    | FragmentLength(code: nat)
    | Renegotiation(data: Bytes)
    | SignaturePairs(pairs: seq<(nat, nat)>)
    | Curves(ids: seq<nat>)
    | Protocols(names: seq<Bytes>)
    | Unknown(kind: nat, content: Bytes)
  {
    function Kind(): nat
    {
      match this
      case ServerName(_) => 0x0000
      case FragmentLength(_) => 0x0001
      case Renegotiation(_) => 0xFF01
      case SignaturePairs(_) => 0x000D
      case Curves(_) => 0x000A
      case Protocols(_) => 0x0010
      case Unknown(kind, _) => kind
    }

    /** Everything fits its field. */
    predicate Valid()
    {
      && |Payload(this)| < 0x1_0000
      && match this
         case ServerName(entries) => forall e <- entries :: e.0 < 256 && |e.1| < 0x1_0000
         case FragmentLength(code) => code < 256
         case Renegotiation(data) => |data| < 256
         case SignaturePairs(pairs) => forall p <- pairs :: p.0 < 256 && p.1 < 256
         case Curves(ids) => forall id <- ids :: id < 0x1_0000
         case Protocols(names) => forall n <- names :: |n| < 256
         case Unknown(kind, _) => kind < 0x1_0000 && kind !in {0x0000, 0x0001, 0xFF01, 0x000D, 0x000A, 0x0010}
    }
  }

  datatype Peer = Peer(
    version: nat,
    random: Bytes,
    sid: Bytes,
    suites: seq<nat>,
    compressions: Bytes,
    extensions: Option<seq<Extension>>)
  {
    predicate Valid()
    {
      && version < 0x1_0000 && |random| == 32 && |sid| < 256
      && |suites| < 0x8000 && (forall s <- suites :: s < 0x1_0000) && |compressions| < 256
      && (extensions.Some? ==> |ExtensionList(extensions.value)| < 0x1_0000 && AllValid(extensions.value))
    }
  }

  predicate AllValid(es: seq<Extension>)
  {
    forall e <- es :: e.Valid()
  }

  // ----- the bytes -----

  function Vec16(x: Bytes): Bytes { W16(|x|) + x }

  function EntryList(entries: seq<(nat, Bytes)>): Bytes
  {
    if entries == [] then [] else W8(entries[0].0) + (Vec16(entries[0].1) + EntryList(entries[1..]))
  }

  function PairList(pairs: seq<(nat, nat)>): Bytes
  {
    if pairs == [] then [] else W8(pairs[0].0) + (W8(pairs[0].1) + PairList(pairs[1..]))
  }

  function Payload(e: Extension): Bytes
  {
    match e
    case ServerName(entries) => Vec16(EntryList(entries))
    case FragmentLength(code) => W8(code)
    case Renegotiation(data) => W8(|data|) + data
    case SignaturePairs(pairs) => Vec16(PairList(pairs))
    case Curves(ids) => Vec16(SuiteList(ids))
    case Protocols(names) => Vec16(NameList(names))
    case Unknown(_, content) => content
  }

  function ExtensionBytes(e: Extension): Bytes { W16(e.Kind()) + Vec16(Payload(e)) }

  function ExtensionList(es: seq<Extension>): Bytes
  {
    if es == [] then [] else ExtensionBytes(es[0]) + ExtensionList(es[1..])
  }

  function TailBytes(p: Peer): Bytes
  {
    match p.extensions
    case None => []
    case Some(es) => Vec16(ExtensionList(es))
  }

  function ListsBytes(p: Peer): Bytes
  {
    Vec16(SuiteList(p.suites)) + (W8(|p.compressions|) + p.compressions)
  }

  function PeerBody(p: Peer): Bytes
  {
    W16(p.version) + (p.random + (W8(|p.sid|) + (p.sid + (ListsBytes(p) + TailBytes(p)))))
  }

  function PeerMessage(p: Peer): Bytes { W8(1) + (W24(|PeerBody(p)|) + PeerBody(p)) }

  // ----- what the server is to make of them -----

  /** The last host name that is not too long. */
  function LastName(entries: seq<(nat, Bytes)>, name: Bytes): Bytes
  {
    if entries == [] then name else
    var (kind, x) := entries[|entries| - 1];
    if kind == 0 && |x| <= 255 then x else LastName(entries[..|entries| - 1], name)
  }

  /** Every supported pair has a bit of a 32-bit mask for itself. */
  lemma PairsApart(hash: nat, sign: nat, hash': nat, sign': nat, x: nat)
    requires x in PairBit(hash, sign)
    ensures x < 32
    ensures x in PairBit(hash', sign') <==> hash' == hash && sign' == sign
  {}

  /** The bits of all pairs. */
  function PairBits(pairs: seq<(nat, nat)>): set<nat>
  {
    set p, x | p in pairs && x in PairBit(p.0, p.1) :: x
  }

  /** What one extension tells the server; None if the server refuses it. */
  function Tells(e: Extension, sv: Server, seen: Seen): Option<Seen>
  {
    match e
    case ServerName(entries) => Some(seen.(name := LastName(entries, seen.name)))
    case FragmentLength(code) =>
      if 1 <= code <= 4 then Some(seen.(logFrag := if 8 + code < seen.logFrag then 8 + code else seen.logFrag))
      else None
    case Renegotiation(data) =>
      if (seen.reneg == 0 && data == []) || (seen.reneg == 2 && |data| == 12 && data == sv.finished)
      then Some(seen.(reneg := 2)) else None
    case SignaturePairs(pairs) => Some(seen.(hashes := PairBits(pairs)))
    case Curves(ids) => Some(seen.(curves := set id | id in ids && id < 32))
    case Protocols(names) =>
      Some(if sv.protocols == [] then seen else seen.(selected := Asked(Best(names, sv.protocols, None))))
    case Unknown(_, _) => Some(seen)
  }

  /** One after the other: of extensions of a kind the last one counts. */
  function TellAll(es: seq<Extension>, sv: Server, seen: Seen): Option<Seen>
  {
    if es == [] then Some(seen) else
    match Tells(es[0], sv, seen)
    case None => None
    case Some(seen') => TellAll(es[1..], sv, seen')
  }

  /** The server refuses a session ID that is too long, and the suite number
      for secure renegotiation in a renegotiation. */
  function Understood(p: Peer, sv: Server): Option<Fields>
  {
    if |p.sid| > 32 || (EMPTY_RENEG_SCSV in p.suites && sv.reneg != 0) then None else
    match TellAll(p.extensions.GetOr([]), sv, Defaults(sv))
    case None => None
    case Some(seen) => Some(Fields(p.version, p.random, p.sid, p.suites, 0 in p.compressions, seen))
  }

  // ----- lists -----

  lemma LastNameFront(entries: seq<(nat, Bytes)>, name: Bytes)
    requires entries != []
    ensures var (kind, x) := entries[0];
            LastName(entries, name) == LastName(entries[1..], if kind == 0 && |x| <= 255 then x else name)
    decreases |entries|
  {
    if |entries| > 1 {
      var front := entries[..|entries| - 1];
      assert front[1..] == entries[1..][..|entries| - 2] && front[0] == entries[0];
      LastNameFront(front, name);
    }
  }

  lemma {:induction false} EntriesRead(entries: seq<(nat, Bytes)>, t: Bytes, l: nat, name: Bytes)
    requires forall e <- entries :: e.0 < 256 && |e.1| < 0x1_0000
    ensures var x := EntryList(entries);
            ReadNames(In(x + t, |x| + l), name) == ReadNames(In(t, l), LastName(entries, name))
    decreases |entries|
  {
    hide W8, R8, W16, R16, RBlob, LastName;
    var x := EntryList(entries);
    if entries == [] {
      assert x + t == t && LastName(entries, name) == name by {
        NoName(name);
      }
    } else {
      var (kind, n) := entries[0];
      var y := EntryList(entries[1..]);
      var u := n + (y + t);
      assert entries[0] in entries && forall e <- entries[1..] :: e in entries;
      assert x + t == W8(kind) + (W16(|n|) + u);
      OneByte(kind);
      OneByte(|n|);
      Then8(kind, W16(|n|) + u, 2 + |n| + (|y| + l));
      Then16(|n|, u, |n| + (|y| + l));
      ThenBlob(n, y + t, |y| + l);
      LastNameFront(entries, name);
      EntriesRead(entries[1..], t, l, if kind == 0 && |n| <= 255 then n else name);
    }
  }

  lemma NoName(name: Bytes)
    ensures LastName([], name) == name
  {}

  lemma {:induction false} AllPairsRead(pairs: seq<(nat, nat)>, t: Bytes, l: nat, bits: set<nat>)
    requires forall p <- pairs :: p.0 < 256 && p.1 < 256
    ensures var x := PairList(pairs);
            ReadPairs(In(x + t, |x| + l), bits) == ReadPairs(In(t, l), bits + PairBits(pairs))
    decreases |pairs|
  {
    hide W8, R8, PairBit;
    var x := PairList(pairs);
    if pairs == [] {
      assert x + t == t && bits + PairBits(pairs) == bits;
    } else {
      var (hash, sign) := pairs[0];
      var y := PairList(pairs[1..]);
      assert pairs[0] in pairs && forall p :: p in pairs <==> p == pairs[0] || p in pairs[1..];
      assert x + t == W8(hash) + (W8(sign) + (y + t));
      OneByte(hash);
      OneByte(sign);
      Then8(hash, W8(sign) + (y + t), 1 + (|y| + l));
      Then8(sign, y + t, |y| + l);
      AllPairsRead(pairs[1..], t, l, bits + PairBit(hash, sign));
      assert bits + PairBits(pairs) == bits + PairBit(hash, sign) + PairBits(pairs[1..]);
    }
  }

  lemma {:induction false} AllIdsRead(ids: seq<nat>, t: Bytes, l: nat, bits: set<nat>)
    requires forall id <- ids :: id < 0x1_0000
    ensures var x := SuiteList(ids);
            ReadIds(In(x + t, |x| + l), bits) == ReadIds(In(t, l), bits + set id | id in ids && id < 32)
    decreases |ids|
  {
    hide W16, R16;
    var x := SuiteList(ids);
    var known := set id | id in ids && id < 32;
    if ids == [] {
      assert x + t == t && bits + known == bits;
    } else {
      var y := SuiteList(ids[1..]);
      assert ids[0] in ids && forall id :: id in ids <==> id == ids[0] || id in ids[1..];
      assert x + t == W16(ids[0]) + (y + t);
      OneByte(ids[0]);
      Then16(ids[0], y + t, |y| + l);
      var bits' := if ids[0] < 32 then bits + {ids[0]} else bits;
      AllIdsRead(ids[1..], t, l, bits');
      assert bits + known == bits' + set id | id in ids[1..] && id < 32;
    }
  }

  lemma {:induction false} AllSuitesRead(suites: seq<nat>, t: Bytes, l: nat, before: seq<nat>, reneg: nat)
    requires forall s <- suites :: s < 0x1_0000
    ensures var x := SuiteList(suites);
            var r := ReadSuites(In(x + t, |x| + l), before, reneg);
            if EMPTY_RENEG_SCSV in suites && reneg != 0 then r.IsFailure()
            else r == ReadSuites(In(t, l), before + suites, reneg)
    decreases |suites|
  {
    hide W16, R16;
    var x := SuiteList(suites);
    if suites == [] {
      assert x + t == t && before + suites == before;
    } else {
      var s, y := suites[0], SuiteList(suites[1..]);
      assert s in suites && forall r :: r in suites <==> r == s || r in suites[1..];
      assert x + t == W16(s) + (y + t);
      OneByte(s);
      Then16(s, y + t, |y| + l);
      AllSuitesRead(suites[1..], t, l, before + [s], reneg);
      assert before + suites == before + [s] + suites[1..];
    }
  }

  lemma {:induction false} AllCompressionsRead(x: Bytes, t: Bytes, ok: bool)
    ensures ReadCompressions(In(x + t, |x|), ok) == Got((ok || 0 in x, In(t, 0)))
    decreases |x|
  {
    if x == [] {
      assert x + t == t;
    } else {
      assert (x + t)[1..] == x[1..] + t && forall b :: b in x <==> b == x[0] || b in x[1..];
      AllCompressionsRead(x[1..], t, ok || x[0] == 0);
    }
  }

  // ----- extensions -----

  /** The two lengths in front of a list. */
  lemma ThenList(x: Bytes, t: Bytes, l: nat)
    requires |x| + 2 < 0x1_0000
    ensures |Vec16(x)| == 2 + |x|
    ensures Open16(In(Vec16(Vec16(x)) + t, |Vec16(Vec16(x))| + l)) == Got((l, In(W16(|x|) + (x + t), 2 + |x|)))
    ensures Open16(In(W16(|x|) + (x + t), 2 + |x|)) == Got((0, In(x + t, |x|)))
  {
    hide W16, R16;
    OneByte(|x|);
    OneByte(|x| + 2);
    assert Vec16(Vec16(x)) + t == W16(|x| + 2) + (W16(|x|) + (x + t));
    ThenOpen(|x| + 2, W16(|x|) + (x + t), l);
    ThenOpen(|x|, x + t, 0);
  }

  lemma ListRead(e: Extension, sv: Server, seen: Seen, t: Bytes, l: nat)
    requires e.Valid() && (e.ServerName? || e.SignaturePairs? || e.Curves? || (e.Protocols? && sv.protocols != []))
    ensures var x := Vec16(Payload(e));
            ReadKind(e.Kind(), In(x + t, |x| + l), sv, seen) == Got((Tells(e, sv, seen).value, In(t, l)))
  {
    hide Vec16, W16, Open16, EntryList, PairList, SuiteList, NameList, ReadNames, ReadPairs, ReadIds, ReadProtocols,
      LastName, PairBits, Best, Ignore16;
    var x := match e
      case ServerName(entries) => EntryList(entries)
      case SignaturePairs(pairs) => PairList(pairs)
      case Curves(ids) => SuiteList(ids)
      case Protocols(names) => NameList(names)
      case _ => [];
    assert Payload(e) == Vec16(x);
    VecLength(x);
    ThenList(x, t, l);
    match e {
      case ServerName(entries) =>
        EntriesRead(entries, t, 0, seen.name);
        NoMoreNames(t, LastName(entries, seen.name));
      case SignaturePairs(pairs) =>
        AllPairsRead(pairs, t, 0, {});
        assert {} + PairBits(pairs) == PairBits(pairs);
        NoPairs(t, PairBits(pairs));
      case Curves(ids) =>
        var known := set id | id in ids && id < 32;
        AllIdsRead(ids, t, 0, {});
        assert {} + known == known;
        NoIds(t, known);
      case Protocols(names) =>
        NamesRead(names, sv.protocols, t, 0, None);
        NoProtocols(t, sv.protocols, Best(names, sv.protocols, None));
      case _ =>
    }
  }

  lemma VecLength(x: Bytes)
    ensures |Vec16(x)| == 2 + |x|
  {}

  lemma NoMoreNames(t: Bytes, name: Bytes)
    ensures ReadNames(In(t, 0), name) == Got((name, In(t, 0)))
  {}

  lemma IgnoredKind(x: Bytes, t: Bytes, l: nat)
    requires |x| < 0x1_0000
    ensures Ignore16(In(Vec16(x) + t, |Vec16(x)| + l)) == Got(In(t, l))
  {
    hide W16, R16, RBlob;
    OneByte(|x|);
    assert Vec16(x) + t == W16(|x|) + (x + t);
    Then16(|x|, x + t, |x| + l);
    ThenBlob(x, t, l);
  }

  lemma FragRead(code: nat, sv: Server, seen: Seen, t: Bytes, l: nat)
    requires code < 256
    ensures var r := ReadKind(0x0001, In(Vec16(W8(code)) + t, 3 + l), sv, seen);
            match Tells(FragmentLength(code), sv, seen)
            case None => r.IsFailure()
            case Some(seen') => r == Got((seen', In(t, l)))
  {
    hide W16, R16, W8, R8;
    OneByte(1);
    OneByte(code);
    assert Vec16(W8(code)) + t == W16(1) + (W8(code) + t);
    Then16(1, W8(code) + t, 1 + l);
    Then8(code, t, l);
  }

  lemma RenegRead(data: Bytes, sv: Server, seen: Seen, t: Bytes, l: nat)
    requires |data| < 256
    ensures var x := Vec16(W8(|data|) + data);
            var r := ReadKind(0xFF01, In(x + t, |x| + l), sv, seen);
            match Tells(Renegotiation(data), sv, seen)
            case None => r.IsFailure()
            case Some(seen') => r == Got((seen', In(t, l)))
  {
    hide W16, R16, W8, R8, RBlob;
    var n := |data|;
    OneByte(n);
    OneByte(n + 1);
    assert Vec16(W8(n) + data) + t == W16(n + 1) + (W8(n) + (data + t));
    Then16(n + 1, W8(n) + (data + t), n + 1 + l);
    Then8(n, data + t, n + l);
    ThenBlob(data, t, l);
    if n == 0 {
      assert data + t == t;
    }
  }

  lemma KindFirst(e: Extension, sv: Server, seen: Seen, t: Bytes, l: nat)
    requires e.Valid()
    ensures var x, y := ExtensionBytes(e), Vec16(Payload(e));
            && |x| == 2 + |y|
            && ReadExtension(In(x + t, |x| + l), sv, seen) == ReadKind(e.Kind(), In(y + t, |y| + l), sv, seen)
  {
    hide W16, R16, Vec16, Payload, ReadSni, ReadFrag, ReadReneg, ReadSignatures, ReadCurves, ReadAlpn, Ignore16;
    var y := Vec16(Payload(e));
    OneByte(e.Kind());
    assert ExtensionBytes(e) + t == W16(e.Kind()) + (y + t);
    Then16(e.Kind(), y + t, |y| + l);
  }

  /** Every extension is read as what it tells, or refused. */
  lemma ExtensionRead(e: Extension, sv: Server, seen: Seen, t: Bytes, l: nat)
    requires e.Valid()
    ensures var x := ExtensionBytes(e);
            var r := ReadExtension(In(x + t, |x| + l), sv, seen);
            match Tells(e, sv, seen)
            case None => r.IsFailure()
            case Some(seen') => x != [] && r == Got((seen', In(t, l)))
  {
    hide ReadExtension, ExtensionBytes, ReadSni, ReadFrag, ReadReneg, ReadSignatures, ReadCurves, Open16,
      EntryList, PairList, SuiteList, NameList, LastName, PairBits, Best, Vec16, W16, Ignore16;
    KindFirst(e, sv, seen, t, l);
    VecLength(Payload(e));
    match e
    case FragmentLength(code) =>
      OneByte(code);
      FragRead(code, sv, seen, t, l);
    case Renegotiation(data) => RenegRead(data, sv, seen, t, l);
    case Unknown(kind, content) => IgnoredKind(content, t, l);
    case Protocols(names) =>
      if sv.protocols == [] {
        IgnoredKind(Payload(e), t, l);
      } else {
        ListRead(e, sv, seen, t, l);
      }
    case _ => ListRead(e, sv, seen, t, l);
  }

  lemma {:induction false} ExtensionsRead(es: seq<Extension>, sv: Server, seen: Seen, t: Bytes)
    requires AllValid(es)
    ensures var x := ExtensionList(es);
            var r := ReadExtensions(In(x + t, |x|), sv, seen);
            match TellAll(es, sv, seen)
            case None => r.IsFailure()
            case Some(seen') => r == Got((seen', In(t, 0)))
    decreases |es|
  {
    hide ReadExtension, ExtensionBytes, Tells, Extension.Valid, Payload, ReadKind, Vec16;
    var x := ExtensionList(es);
    if es == [] {
      assert x + t == t;
    } else {
      var y, z := ExtensionBytes(es[0]), ExtensionList(es[1..]);
      assert es[0] in es && forall e <- es[1..] :: e in es;
      assert x + t == y + (z + t);
      ExtensionRead(es[0], sv, seen, z + t, |z|);
      if Tells(es[0], sv, seen).Some? {
        ExtensionsRead(es[1..], sv, Tells(es[0], sv, seen).value, t);
      } else {
        KindFirst(es[0], sv, seen, z + t, |z|);
      }
    }
  }

  // ----- the whole message -----

  lemma PeerListsRead(p: Peer, sv: Server, t: Bytes, l: nat)
    requires p.Valid()
    ensures var x := ListsBytes(p);
            var r := ReadLists(In(x + t, |x| + l), sv);
            if EMPTY_RENEG_SCSV in p.suites && sv.reneg != 0 then r.IsFailure()
            else r == Got(((p.suites, 0 in p.compressions), In(t, l)))
  {
    hide W16, W8, R16, R8, ReadSuites, SuiteList, ReadCompressions, Extension.Valid, ExtensionList;
    var m, n := |p.suites| * 2, |p.compressions|;
    SuiteListLength(p.suites);
    var t1 := W8(n) + (p.compressions + t);
    OneByte(n);
    OneByte(m);
    assert ListsBytes(p) + t == W16(m) + (SuiteList(p.suites) + t1);
    ThenOpen(m, SuiteList(p.suites) + t1, 1 + n + l);
    AllSuitesRead(p.suites, t1, 0, [], sv.reneg);
    assert [] + p.suites == p.suites;
    NoSuites(t1, p.suites, sv.reneg);
    Then8(n, p.compressions + t, n + l);
    AllCompressionsRead(p.compressions, t, false);
  }

  lemma PeerHeadRead(p: Peer, sv: Server, t: Bytes, l: nat)
    requires p.Valid()
    ensures var x := W16(p.version) + (p.random + (W8(|p.sid|) + (p.sid + ListsBytes(p))));
            var r := ReadHead(In(x + t, |x| + l), sv);
            if |p.sid| > 32 || (EMPTY_RENEG_SCSV in p.suites && sv.reneg != 0) then r.IsFailure()
            else r == Got((Fields(p.version, p.random, p.sid, p.suites, 0 in p.compressions, Defaults(sv)), In(t, l)))
  {
    hide W16, W8, R16, R8, RBlob, ReadLists, ListsBytes, Extension.Valid, ExtensionList;
    var n, m := |p.sid|, |ListsBytes(p)|;
    var t2 := ListsBytes(p) + t;
    var t3 := W8(n) + (p.sid + t2);
    OneByte(p.version);
    OneByte(n);
    assert W16(p.version) + (p.random + (W8(n) + (p.sid + ListsBytes(p)))) + t == W16(p.version) + (p.random + t3);
    Then16(p.version, p.random + t3, 32 + (1 + n + m + l));
    ThenBlob(p.random, t3, 1 + n + m + l);
    Then8(n, p.sid + t2, n + (m + l));
    ThenBlob(p.sid, t2, m + l);
    PeerListsRead(p, sv, t, l);
  }

  lemma BodyRead(p: Peer, sv: Server, t: Bytes)
    requires p.Valid()
    ensures var r := ReadBody(In(PeerBody(p) + t, |PeerBody(p)|), sv);
            match Understood(p, sv)
            case None => r.IsFailure()
            case Some(fields) => r == Got((fields, In(t, 0)))
  {
    hide W16, W8, R16, ReadHead, ReadExtensions, TellAll, ListsBytes, ExtensionList, Extension.Valid, Defaults;
    var head := W16(p.version) + (p.random + (W8(|p.sid|) + (p.sid + ListsBytes(p))));
    var tail := TailBytes(p);
    assert PeerBody(p) == head + tail;
    assert PeerBody(p) + t == head + (tail + t);
    PeerHeadRead(p, sv, tail + t, |tail|);
    match p.extensions {
      case None =>
        assert tail + t == t;
        NothingTold(sv);
      case Some(es) =>
        var x := ExtensionList(es);
        OneByte(|x|);
        assert tail + t == W16(|x|) + (x + t);
        ThenOpen(|x|, x + t, 0);
        ExtensionsRead(es, sv, Defaults(sv), t);
    }
  }

  lemma NothingTold(sv: Server)
    ensures TellAll([], sv, Defaults(sv)) == Some(Defaults(sv))
  {}

  lemma BodyLength(p: Peer)
    requires p.Valid()
    ensures |PeerBody(p)| < 0x100_0000
  {
    hide ExtensionList, SuiteList, Extension.Valid;
    SuiteListLength(p.suites);
  }

  /** Whatever client has written it: the server recovers the fields of the
      message, uses up every limit and leaves what follows, or fails exactly if
      there is something in it that it refuses. */
  lemma AnyHelloIsRead(p: Peer, sv: Server, t: Bytes)
    requires p.Valid()
    ensures var r := ReadHello(PeerMessage(p) + t, sv);
            match Understood(p, sv)
            case None => r.IsFailure()
            case Some(fields) => r == Got((fields, In(t, 0)))
  {
    hide PeerBody, ReadBody, Understood, Extension.Valid, ExtensionList;
    BodyLength(p);
    var n := |PeerBody(p)|;
    var data := PeerMessage(p) + t;
    assert data[1..] == W24(n) + (PeerBody(p) + t);
    assert data[1..][3..] == PeerBody(p) + t;
    Digits24(n);
    BodyRead(p, sv, t);
  }
}
