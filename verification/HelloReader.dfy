/** The server's readers as they run: over a current record and the records
    still to come, with limits that are counted down, feeding the running
    hash. */
module HelloReader {
  import opened Wrappers
  import opened HelloSpec
  import opened HelloRoundTrip

  function Flat(records: seq<Bytes>): Bytes
  {
    if records == [] then [] else records[0] + Flat(records[1..])
  }

  /** What a reader answers and leaves, against what it is to do. */
  ghost predicate Does<T>(spec: Got<(T, In)>, r: Got<T>, data: Bytes, lim: nat)
  {
    match spec
    case Got((v, j)) => r == Got(v) && data == j.data && lim == j.lim
    case _ => r.IsFailure() && r == spec.PropagateFailure<T>()
  }

  lemma TookBlob(x: Bytes, rest: Bytes, all: Bytes, lim: nat)
    requires x + rest == all && |x| <= lim
    ensures RBlob(In(all, lim), |x|) == Got((x, In(rest, lim - |x|)))
  {
    assert all[..|x|] == x && all[|x|..] == rest;
  }

  lemma RanDry(x: Bytes, all: Bytes, lim: nat, n: nat)
    requires x + [] == all && |x| < n <= lim
    ensures RBlob(In(all, lim), n) == Starved
  {}

  lemma TooLong(all: Bytes, lim: nat, n: nat)
    requires n > lim
    ensures RBlob(In(all, lim), n) == BadParam
  {}

  class Engine {
    var buf: Bytes
    var records: seq<Bytes>
    var hash: Bytes

    /** All bytes that have not been read, however they are cut up. */
    function Left(): Bytes
      reads this
    {
      buf + Flat(records)
    }

    constructor (records: seq<Bytes>)
      ensures Left() == Flat(records) && hash == []
    {
      this.buf, this.records, this.hash := [], records, [];
    }

    /** Wait for the next record; it may never come. */
    method Await() returns (came: bool)
      requires buf == []
      modifies this
      ensures came == (old(records) != [])
      ensures Left() == old(Left()) && hash == old(hash)
      ensures came ==> |records| < |old(records)|
      ensures !came ==> Left() == []
    {
      came := records != [];
      if came {
        buf, records := records[0], records[1..];
      }
    }

    /** The next byte of the record, or -1. */
    method Read8Native() returns (x: int)
      modifies this
      ensures old(buf) == [] ==> x == -1 && buf == [] && records == old(records) && hash == old(hash)
      ensures old(buf) != [] ==>
                x == old(buf)[0] && [old(buf)[0]] + Left() == old(Left()) && hash == old(hash) + [old(buf)[0]]
    {
      if buf == [] {
        return -1;
      }
      x := buf[0];
      hash := hash + [buf[0]];
      assert buf == [buf[0]] + buf[1..];
      buf := buf[1..];
    }

    method Read8Nc() returns (r: Got<nat>)
      modifies this
      ensures hash + Left() == old(hash + Left())
      ensures if old(Left()) == [] then r == Starved
              else r == Got(old(Left())[0] as nat) && Left() == old(Left())[1..]
    {
      while true
        invariant Left() == old(Left()) && hash == old(hash)
        decreases |records|
      {
        var x := Read8Native();
        if x >= 0 {
          return Got(x);
        }
        var came := Await();
        if !came {
          return Starved;
        }
      }
    }

    /** What the record still has, but at most n bytes. */
    method ReadChunkNative(n: nat) returns (x: Bytes)
      modifies this
      ensures |x| == if |old(buf)| < n then |old(buf)| else n
      ensures x + Left() == old(Left()) && hash == old(hash) + x && records == old(records)
      ensures |x| < n ==> buf == []
    {
      var k := if |buf| < n then |buf| else n;
      x := buf[..k];
      hash := hash + x;
      assert buf == x + buf[k..];
      buf := buf[k..];
    }

    /** got has been read of what was there at first, and hashed. */
    ghost predicate Took(all: Bytes, hashed: Bytes, got: Bytes)
      reads this
    {
      got + Left() == all && hash == hashed + got
    }

    lemma TookMore(all: Bytes, hashed: Bytes, got: Bytes, x: Bytes, left: Bytes, h: Bytes)
      requires got + left == all && h == hashed + got
      requires x + Left() == left && hash == h + x
      ensures Took(all, hashed, got + x)
    {
      assert (got + x) + Left() == got + (x + Left());
      assert hashed + (got + x) == (hashed + got) + x;
    }

    lemma TookKeeps(all: Bytes, hashed: Bytes, got: Bytes)
      requires Took(all, hashed, got)
      ensures hash + Left() == hashed + all && got + Left() == all && hash == hashed + got
    {
      assert (hashed + got) + Left() == hashed + (got + Left());
    }

    /** One turn of the blob loop: false if it runs dry. */
    method ReadSome(ghost all: Bytes, ghost hashed: Bytes, got: Bytes, n: nat) returns (more: Bytes, dry: bool)
      requires |got| < n && Took(all, hashed, got)
      modifies this
      ensures Took(all, hashed, more) && |got| <= |more| <= n
      ensures dry ==> |more| < n && Left() == []
      ensures !dry && |more| < n ==> |records| < |old(records)|
    {
      hide Took;
      TookKeeps(all, hashed, got);
      ghost var left, h := Left(), hash;
      var x := ReadChunkNative(n - |got|);
      TookMore(all, hashed, got, x, left, h);
      more := got + x;
      if |more| == n {
        return more, false;
      }
      TookKeeps(all, hashed, more);
      var came := Await();
      TookSame(all, hashed, more);
      dry := !came;
    }

    lemma TookSame(all: Bytes, hashed: Bytes, got: Bytes)
      requires got + Left() == all && hash == hashed + got
      ensures Took(all, hashed, got)
    {}

    method ReadBlob(lim: nat, n: nat) returns (r: Got<Bytes>, lim2: nat)
      modifies this
      ensures hash + Left() == old(hash + Left())
      ensures Does(RBlob(In(old(Left()), lim), n), r, Left(), lim2)
      ensures r.Got? ==> lim2 <= lim
    {
      hide RBlob, Took, Flat;
      if n > lim {
        TooLong(Left(), lim, n);
        return BadParam, lim;
      }
      ghost var all, hashed := Left(), hash;
      lim2 := lim - n;
      var got: Bytes := [];
      TookSame(all, hashed, got);
      while |got| < n
        invariant |got| <= n && Took(all, hashed, got)
        decreases n - |got|, |records|
      {
        var dry;
        got, dry := ReadSome(all, hashed, got, n);
        if dry {
          TookKeeps(all, hashed, got);
          RanDry(got, all, lim, n);
          return Starved, lim2;
        }
      }
      TookKeeps(all, hashed, got);
      TookBlob(got, Left(), all, lim);
      r := Got(got);
    }

    method SkipBlob(lim: nat, n: nat) returns (r: Got<()>, lim2: nat)
      modifies this
      ensures hash + Left() == old(hash + Left())
      ensures match RBlob(In(old(Left()), lim), n)
              case Got((_, j)) => r == Got(()) && Left() == j.data && lim2 == j.lim
              case BadParam => r == BadParam
              case _ => r == Starved
    {
      if n > lim {
        return BadParam, lim;
      }
      lim2 := lim - n;
      var k := 0;
      while k < n
        invariant 0 <= k <= n && k <= |old(Left())| && Left() == old(Left())[k..]
        invariant hash + Left() == old(hash + Left())
      {
        var _ :- Read8Nc();
        k := k + 1;
      }
      r := Got(());
    }

    method Read8(lim: nat) returns (r: Got<nat>, lim2: nat)
      modifies this
      ensures hash + Left() == old(hash + Left())
      ensures Does(R8(In(old(Left()), lim)), r, Left(), lim2)
      ensures r.Got? ==> lim2 < lim
    {
      if lim < 1 {
        return BadParam, lim;
      }
      lim2 := lim - 1;
      r := Read8Nc();
    }

    method Read16(lim: nat) returns (r: Got<nat>, lim2: nat)
      modifies this
      ensures hash + Left() == old(hash + Left())
      ensures Does(R16(In(old(Left()), lim)), r, Left(), lim2)
      ensures r.Got? ==> lim2 < lim
    {
      if lim < 2 {
        return BadParam, lim;
      }
      lim2 := lim - 2;
      var hi :- Read8Nc();
      var lo :- Read8Nc();
      r := Got(hi * 256 + lo);
    }

    method ReadIgnore16(lim: nat) returns (r: Got<()>, lim2: nat)
      modifies this
      ensures hash + Left() == old(hash + Left())
      ensures match Ignore16(In(old(Left()), lim))
              case Got(j) => r == Got(()) && Left() == j.data && lim2 == j.lim
              case failure => r.IsFailure() && r == failure.PropagateFailure<()>()
      ensures r.Got? ==> lim2 <= lim
    {
      lim2 := lim;
      var n, l :- Read16(lim);
      r, lim2 := SkipBlob(l, n);
    }

    /** A two-byte length, and the element it opens: the limit outside is the
        answer, the one inside is left. */
    method OpenElt(lim: nat) returns (r: Got<nat>, inner: nat)
      modifies this
      ensures hash + Left() == old(hash + Left())
      ensures Does(Open16(In(old(Left()), lim)), r, Left(), inner)
    {
      inner := lim;
      var n, l :- Read16(lim);
      if n > l {
        return BadParam, l;
      }
      return Got(l - n), n;
    }

    /** The element inside must be used up. */
    method CloseElt(lim: nat) returns (r: Got<()>)
      ensures r == if lim != 0 then BadParam else Got(())
    {
      r := if lim != 0 then BadParam else Got(());
    }

    method ReadClientSni(lim: nat, name: Bytes) returns (r: Got<Bytes>, lim2: nat)
      modifies this
      ensures hash + Left() == old(hash + Left())
      ensures Does(ReadSni(In(old(Left()), lim), name), r, Left(), lim2)
    {
      hide Open16, RBlob, R8, R16, Ignore16, ReadNames, Engine.Left;
      lim2 := lim;
      var outer, ext :- OpenElt(lim);
      var outer2, list :- OpenElt(ext);
      var found :- ReadNameList(list, name);
      var _ :- CloseElt(outer2);
      return Got(found), outer;
    }

    method ReadNameList(lim: nat, name: Bytes) returns (r: Got<Bytes>)
      modifies this
      ensures hash + Left() == old(hash + Left())
      ensures Does(ReadNames(In(old(Left()), lim), name), r, Left(), 0)
    {
      hide RBlob, R8, R16, Ignore16, Engine.Left;
      var list, found := lim, name;
      while list > 0
        invariant hash + Left() == old(hash + Left())
        invariant ReadNames(In(Left(), list), found) == ReadNames(In(old(Left()), lim), name)
        decreases list
      {
        var kind, l1 :- Read8(list);
        if kind != 0 {
          var _, l2 :- ReadIgnore16(l1);
          list := l2;
        } else {
          var n, l2 :- Read16(l1);
          var x, l3 :- ReadBlob(l2, n);
          if n <= 255 {
            found := x;
          }
          list := l3;
        }
      }
      r := Got(found);
    }

    method ReadClientFrag(lim: nat, own: nat) returns (r: Got<nat>, lim2: nat)
      modifies this
      ensures hash + Left() == old(hash + Left())
      ensures Does(ReadFrag(In(old(Left()), lim), own), r, Left(), lim2)
    {
      hide R8, R16, Engine.Left;
      lim2 := lim;
      var n, l :- Read16(lim);
      if n != 1 {
        return BadFragLength, l;
      }
      var v;
      v, l :- Read8(l);
      if v == 0 || v >= 5 {
        return BadFragLength, l;
      }
      return Got(if v + 8 < own then v + 8 else own), l;
    }

    method ReadClientReneg(lim: nat, reneg: nat, finished: Bytes) returns (r: Got<nat>, lim2: nat)
      modifies this
      ensures hash + Left() == old(hash + Left())
      ensures Does(ReadReneg(In(old(Left()), lim), reneg, finished), r, Left(), lim2)
    {
      hide R8, R16, RBlob, Engine.Left;
      lim2 := lim;
      var n, l :- Read16(lim);
      match reneg {
        case 0 =>
          if n != 1 {
            return BadReneg, l;
          }
          var v;
          v, l :- Read8(l);
          return if v != 0 then BadReneg else Got(2), l;
        case 2 =>
          if n != 13 {
            return BadReneg, l;
          }
          var v;
          v, l :- Read8(l);
          if v != 12 {
            return BadReneg, l;
          }
          var x;
          x, l :- ReadBlob(l, 12);
          return if x != finished then BadReneg else Got(2), l;
        case _ =>
          return BadReneg, l;
      }
    }

    /** The pairs of a list whose length is still to be read; what is outside
        the list is left of the limit. */
    method ReadListSignAlgos(lim: nat) returns (r: Got<set<nat>>, lim2: nat)
      modifies this
      ensures hash + Left() == old(hash + Left())
      ensures match Open16(In(old(Left()), lim))
              case Got((outer, j)) => Does(ReadPairs(j, {}), r, Left(), 0) && (r.Got? ==> lim2 == outer)
              case failure => r.IsFailure() && r == failure.PropagateFailure<set<nat>>()
    {
      hide R8, Open16, PairBit, Engine.Left;
      lim2 := lim;
      var outer, inner :- OpenElt(lim);
      ghost var start := In(Left(), inner);
      var hashes := {};
      while inner > 0
        invariant hash + Left() == old(hash + Left())
        invariant ReadPairs(In(Left(), inner), hashes) == ReadPairs(start, {})
        decreases inner
      {
        var h, l1 :- Read8(inner);
        var s, l2 :- Read8(l1);
        hashes := hashes + PairBit(h, s);
        inner := l2;
      }
      return Got(hashes), outer;
    }

    method ReadClientSignatures(lim: nat) returns (r: Got<set<nat>>, lim2: nat)
      modifies this
      ensures hash + Left() == old(hash + Left())
      ensures Does(ReadSignatures(In(old(Left()), lim)), r, Left(), lim2)
    {
      hide Open16, ReadPairs, Engine.Left;
      lim2 := lim;
      var outer, ext :- OpenElt(lim);
      var hashes, rest :- ReadListSignAlgos(ext);
      var _ :- CloseElt(rest);
      return Got(hashes), outer;
    }

    method ReadSupportedCurves(lim: nat) returns (r: Got<set<nat>>, lim2: nat)
      modifies this
      ensures hash + Left() == old(hash + Left())
      ensures Does(ReadCurves(In(old(Left()), lim)), r, Left(), lim2)
    {
      hide Open16, R16, Engine.Left;
      lim2 := lim;
      var outer, ext :- OpenElt(lim);
      var outer2, list :- OpenElt(ext);
      ghost var start := In(Left(), list);
      var curves := {};
      while list > 0
        invariant hash + Left() == old(hash + Left())
        invariant ReadIds(In(Left(), list), curves) == ReadIds(start, {})
        decreases list
      {
        var id, l :- Read16(list);
        if id < 32 {
          curves := curves + {id};
        }
        list := l;
      }
      var _ :- CloseElt(outer2);
      return Got(curves), outer;
    }

    method TestProtocolName(name: Bytes, own: seq<Bytes>) returns (index: int)
      ensures index == match Place(name, own) case None => -1 case Some(k) => k
    {
      var u := 0;
      while u < |own|
        invariant 0 <= u <= |own|
        invariant Place(name, own) == match Place(name, own[u..]) case None => None case Some(k) => Some(u + k)
      {
        if own[u] == name {
          return u;
        }
        u := u + 1;
      }
      index := -1;
    }

    method ReadAlpnFromClient(lim: nat, own: seq<Bytes>, before: Selection) returns (r: Got<Selection>, lim2: nat)
      modifies this
      ensures hash + Left() == old(hash + Left())
      ensures Does(ReadAlpn(In(old(Left()), lim), own, before), r, Left(), lim2)
    {
      hide Open16, R8, RBlob, Ignore16, Engine.Left, Place;
      lim2 := lim;
      if own == [] {
        var _, l :- ReadIgnore16(lim);
        return Got(before), l;
      }
      var outer, ext :- OpenElt(lim);
      var outer2, list :- OpenElt(ext);
      ghost var start := In(Left(), list);
      var found: Option<nat> := None;
      while list > 0
        invariant hash + Left() == old(hash + Left())
        invariant ReadProtocols(In(Left(), list), own, found) == ReadProtocols(start, own, None)
        decreases list
      {
        var n, l1 :- Read8(list);
        var x, l2 :- ReadBlob(l1, n);
        var index := TestProtocolName(x, own);
        if index >= 0 && (found.None? || index < found.value) {
          found := Some(index);
        }
        list := l2;
      }
      var _ :- CloseElt(outer2);
      return Got(Asked(found)), outer;
    }

    method ReadOneExtension(lim: nat, sv: Server, seen: Seen) returns (r: Got<Seen>, lim2: nat)
      modifies this
      ensures hash + Left() == old(hash + Left())
      ensures Does(ReadExtension(In(old(Left()), lim), sv, seen), r, Left(), lim2)
    {
      hide R16, Ignore16, ReadSni, ReadFrag, ReadReneg, ReadSignatures, ReadCurves, ReadAlpn, Engine.Left;
      lim2 := lim;
      var kind, l :- Read16(lim);
      match kind {
        case 0x0000 =>
          var x;
          x, l :- ReadClientSni(l, seen.name);
          return Got(seen.(name := x)), l;
        case 0x0001 =>
          var x;
          x, l :- ReadClientFrag(l, seen.logFrag);
          return Got(seen.(logFrag := x)), l;
        case 0xFF01 =>
          var x;
          x, l :- ReadClientReneg(l, seen.reneg, sv.finished);
          return Got(seen.(reneg := x)), l;
        case 0x000D =>
          var x;
          x, l :- ReadClientSignatures(l);
          return Got(seen.(hashes := x)), l;
        case 0x000A =>
          var x;
          x, l :- ReadSupportedCurves(l);
          return Got(seen.(curves := x)), l;
        case 0x0010 =>
          var x;
          x, l :- ReadAlpnFromClient(l, sv.protocols, seen.selected);
          return Got(seen.(selected := x)), l;
        case _ =>
          var _, l2 :- ReadIgnore16(l);
          return Got(seen), l2;
      }
    }

    method ReadAllExtensions(lim: nat, sv: Server, before: Seen) returns (r: Got<Seen>)
      modifies this
      ensures hash + Left() == old(hash + Left())
      ensures Does(ReadExtensions(In(old(Left()), lim), sv, before), r, Left(), 0)
    {
      hide ReadExtension, Engine.Left;
      var list, seen := lim, before;
      while list > 0
        invariant hash + Left() == old(hash + Left())
        invariant ReadExtensions(In(Left(), list), sv, seen) == ReadExtensions(In(old(Left()), lim), sv, before)
        decreases list
      {
        ghost var here := In(Left(), list);
        ghost var spec := ReadExtension(here, sv, seen);
        var x, l :- ReadOneExtension(list, sv, seen);
        seen := x;
        list := l;
      }
      r := Got(seen);
    }

    method ReadFirstFields(lim: nat, sv: Server) returns (r: Got<Fields>, lim2: nat)
      modifies this
      ensures hash + Left() == old(hash + Left())
      ensures Does(ReadHead(In(old(Left()), lim), sv), r, Left(), lim2)
    {
      hide R16, R8, RBlob, ReadLists, Engine.Left;
      lim2 := lim;
      var version, l1 :- Read16(lim);
      var random, l2 :- ReadBlob(l1, 32);
      var n, l3 :- Read8(l2);
      if n > 32 {
        return OversizedId, l3;
      }
      var sid, l4 :- ReadBlob(l3, n);
      var lists, l5 :- ReadFirstLists(l4, sv);
      return Got(Fields(version, random, sid, lists.0, lists.1, Defaults(sv))), l5;
    }

    method ReadFirstLists(lim: nat, sv: Server) returns (r: Got<(seq<nat>, bool)>, lim2: nat)
      modifies this
      ensures hash + Left() == old(hash + Left())
      ensures Does(ReadLists(In(old(Left()), lim), sv), r, Left(), lim2)
    {
      hide R8, Open16, ReadSuites, ReadCompressions, Engine.Left;
      lim2 := lim;
      var outer, list :- OpenElt(lim);
      var suites :- ReadSuiteList(list, sv.reneg);
      var n, l :- Read8(outer);
      if n > l {
        return BadParam, l;
      }
      var ok :- ReadCompressionList(n);
      return Got((suites, ok)), l - n;
    }

    method ReadSuiteList(lim: nat, reneg: nat) returns (r: Got<seq<nat>>)
      modifies this
      ensures hash + Left() == old(hash + Left())
      ensures Does(ReadSuites(In(old(Left()), lim), [], reneg), r, Left(), 0)
    {
      hide R16, Engine.Left;
      var list, suites := lim, [];
      while list > 0
        invariant hash + Left() == old(hash + Left())
        invariant ReadSuites(In(Left(), list), suites, reneg) == ReadSuites(In(old(Left()), lim), [], reneg)
        decreases list
      {
        var s, l :- Read16(list);
        if s == EMPTY_RENEG_SCSV && reneg != 0 {
          return BadReneg;
        }
        suites := suites + [s];
        list := l;
      }
      r := Got(suites);
    }

    method ReadCompressionList(lim: nat) returns (r: Got<bool>)
      modifies this
      ensures hash + Left() == old(hash + Left())
      ensures Does(ReadCompressions(In(old(Left()), lim), false), r, Left(), 0)
    {
      hide R8, Engine.Left;
      var list, ok := lim, false;
      while list > 0
        invariant hash + Left() == old(hash + Left())
        invariant ReadCompressions(In(Left(), list), ok) == ReadCompressions(In(old(Left()), lim), false)
        decreases list
      {
        var c, l :- Read8(list);
        ok := ok || c == 0;
        list := l;
      }
      r := Got(ok);
    }

    method ReadClientHelloBody(lim: nat, sv: Server) returns (r: Got<Fields>)
      modifies this
      ensures hash + Left() == old(hash + Left())
      ensures Does(ReadBody(In(old(Left()), lim), sv), r, Left(), 0)
    {
      hide ReadHead, Open16, ReadExtensions, Engine.Left;
      var fields, l :- ReadFirstFields(lim, sv);
      if l == 0 {
        return Got(fields);
      }
      var outer, list :- OpenElt(l);
      var seen :- ReadAllExtensions(list, sv, fields.seen);
      var _ :- CloseElt(outer);
      r := Got(fields.(seen := seen));
    }

    method ReadHandshakeHeader() returns (r: Got<(nat, nat)>)
      modifies this
      ensures hash + Left() == old(hash + Left())
      ensures match ReadHeader(old(Left()))
              case Got((v, rest)) => r == Got(v) && Left() == rest
              case failure => r.IsFailure() && r == failure.PropagateFailure<(nat, nat)>()
    {
      hide Engine.Left;
      while true
        invariant hash + Left() == old(hash + Left())
        invariant ReadHeader(Left()) == ReadHeader(old(Left()))
        decreases |Left()|
      {
        var kind :- Read8Nc();
        var length :- Read24();
        if kind != 0 {
          return Got((kind, length));
        }
        if length != 0 {
          return BadHandshake;
        }
      }
    }

    method Read24() returns (r: Got<nat>)
      modifies this
      ensures hash + Left() == old(hash + Left())
      ensures Does(R24(In(old(Left()), 3)), r, Left(), 0)
    {
      hide Engine.Left;
      var b0 :- Read8Nc();
      var b1 :- Read8Nc();
      var b2 :- Read8Nc();
      r := Got((b0 * 256 + b1) * 256 + b2);
    }

    /** What is answered depends on the bytes to come and not on how they are
        cut into records; and what is hashed is what is read. */
    method ReadClientHello(sv: Server) returns (r: Got<Fields>)
      modifies this
      ensures hash + Left() == old(hash + Left())
      ensures Does(ReadHello(old(Left()), sv), r, Left(), 0)
    {
      hide ReadHeader, ReadBody, Engine.Left;
      var header :- ReadHandshakeHeader();
      if header.0 != 1 {
        return Unexpected;
      }
      r := ReadClientHelloBody(header.1, sv);
    }
  }

  /** However the bytes of a hello are cut into records, the server recovers
      its fields, hashes exactly the message, and leaves what follows; or it
      fails, exactly if it does not accept the hello or the hello is a padded
      one without other extensions. */
  method HelloArrives(h: Hello, t: Bytes, sv: Server, records: seq<Bytes>) returns (r: Got<Fields>, e: Engine)
    requires h.Valid() && Flat(records) == Message(h) + t
    ensures if Acceptable(h, sv) && !PadsNothing(h) then
              r == Got(Fields(h.version, h.random, h.sid, h.suites, true, Expected(h, sv)))
              && e.hash == Message(h) && e.Left() == t
            else r.IsFailure()
  {
    hide Message, ReadHello, Expected, Acceptable, PadsNothing;
    e := new Engine(records);
    r := e.ReadClientHello(sv);
    MessageRoundTrips(h, sv, t);
    assert [] + (Message(h) + t) == Message(h) + t;
    if r.Got? {
      assert |e.hash| == |Message(h)| by { assert |e.hash + t| == |Message(h) + t|; }
      assert (e.hash + t)[..|e.hash|] == e.hash && (Message(h) + t)[..|e.hash|] == Message(h);
    }
  }
}
