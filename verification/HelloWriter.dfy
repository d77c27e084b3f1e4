/** The client's writers as they run, with an output buffer that has room for
    some bytes at a time. */
module HelloWriter {
  import opened Base128
  import opened HelloSpec

  class Output {
    var written: Bytes
    var room: nat
    var later: seq<nat>
    var hash: Bytes

    /** The running hash has taken in all that was written. */
    predicate Valid()
      reads this
    {
      hash == written
    }

    /** later is the room that there will be after each wait. */
    constructor (room: nat, later: seq<nat>)
      ensures Valid() && written == []
    {
      this.room, this.later := room, later;
      written, hash := [], [];
    }

    /** Wait for the buffer to be sent; that may never happen. */
    method Await() returns (came: bool)
      modifies this`room, this`later
      ensures came == (old(later) != []) && (came ==> |later| < |old(later)|)
    {
      came := later != [];
      if came {
        room, later := later[0], later[1..];
      }
    }

    method Write8Native(x: byte) returns (ok: bool)
      requires Valid()
      modifies this
      ensures Valid() && ok == (old(room) > 0) && later == old(later)
      ensures written == if ok then old(written) + [x] else old(written)
    {
      ok := room > 0;
      if ok {
        written, hash, room := written + [x], hash + [x], room - 1;
      }
    }

    /** As much of x as there is room for. */
    method WriteBlobChunk(x: Bytes) returns (n: nat)
      requires Valid()
      modifies this
      ensures Valid() && n == (if old(room) < |x| then old(room) else |x|) && later == old(later)
      ensures written == old(written) + x[..n]
    {
      n := if room < |x| then room else |x|;
      written, hash, room := written + x[..n], hash + x[..n], room - n;
    }

    method Write8(n: nat) returns (r: Got<()>)
      requires Valid()
      modifies this
      ensures Valid() && (r.Got? || r == Starved)
      ensures r.Got? ==> written == old(written) + W8(n)
    {
      while true
        invariant Valid() && written == old(written)
        decreases |later|
      {
        var ok := Write8Native(n % 256);
        if ok {
          return Got(());
        }
        var came := Await();
        if !came {
          return Starved;
        }
      }
    }

    method Write16(n: nat) returns (r: Got<()>)
      requires Valid()
      modifies this
      ensures Valid() && (r.Got? || r == Starved)
      ensures r.Got? ==> written == old(written) + W16(n)
    {
      var _ :- Write8(n / 256);
      var _ :- Write8(n % 256);
      r := Got(());
    }

    method Write24(n: nat) returns (r: Got<()>)
      requires Valid()
      modifies this
      ensures Valid() && (r.Got? || r == Starved)
      ensures r.Got? ==> written == old(written) + W24(n)
    {
      hide W8, W16, W24;
      var _ :- Write8(n / 65536);
      var _ :- Write16(n % 65536);
      Join2(old(written), W8(n / 65536), W16(n % 65536));
      Splits24(n);
      r := Got(());
    }

    method WriteBlob(x: Bytes) returns (r: Got<()>)
      requires Valid()
      modifies this
      ensures Valid() && (r.Got? || r == Starved)
      ensures r.Got? ==> written == old(written) + x
    {
      var k := 0;
      assert x[..0] == [];
      while k < |x|
        invariant 0 <= k <= |x| && Valid() && written == old(written) + x[..k]
        decreases |x| - k, |later|
      {
        var n := WriteBlobChunk(x[k..]);
        ChunkJoins(old(written), x, k, n);
        k := k + n;
        if k == |x| {
          break;
        }
        var came := Await();
        if !came {
          return Starved;
        }
      }
      assert x[..|x|] == x;
      r := Got(());
    }

    method WritePair(h: Hello, id: nat, sign: nat) returns (r: Got<()>)
      requires Valid()
      modifies this
      ensures Valid() && (r.Got? || r == Starved)
      ensures r.Got? ==> written == old(written) + PairOf(h, id, sign)
    {
      hide W8;
      if id in h.hashes {
        var _ :- Write8(id);
        var _ :- Write8(sign);
        Join2(old(written), W8(id), W8(sign));
      }
      r := Got(());
    }

    method WriteHashes(h: Hello, sign: nat) returns (r: Got<()>)
      requires Valid()
      modifies this
      ensures Valid() && (r.Got? || r == Starved)
      ensures r.Got? ==> written == old(written) + PairsUnrolled(h, sign)
    {
      hide PairOf;
      var _ :- WritePair(h, 4, sign);
      var _ :- WritePair(h, 3, sign);
      var _ :- WritePair(h, 5, sign);
      var _ :- WritePair(h, 6, sign);
      var _ :- WritePair(h, 2, sign);
      Join5(old(written), PairOf(h, 4, sign), PairOf(h, 3, sign), PairOf(h, 5, sign), PairOf(h, 6, sign),
            PairOf(h, 2, sign));
      r := Got(());
    }

    method WriteReneg(h: Hello) returns (r: Got<()>)
      requires Valid() && h.Valid()
      modifies this
      ensures Valid() && (r.Got? || r == Starved)
      ensures r.Got? ==> written == old(written) + RenegBytes(h)
    {
      hide W8, W16, Hello.Valid;
      Ranges(h);
      var n := RenegLength(h);
      if n != 0 {
        var _ :- Write16(0xFF01);
        var _ :- Write16(n - 4);
        var _ :- Write8(n - 5);
        var _ :- WriteBlob(h.finished[..n - 5]);
        Join4(old(written), W16(0xFF01), W16(n - 4), W8(n - 5), h.finished[..n - 5]);
      }
      r := Got(());
    }

    method WriteSni(h: Hello) returns (r: Got<()>)
      requires Valid()
      modifies this
      ensures Valid() && (r.Got? || r == Starved)
      ensures r.Got? ==> written == old(written) + SniBytes(h)
    {
      hide W8, W16;
      var n := SniLength(h);
      if n != 0 {
        var _ :- Write16(0x0000);
        var _ :- Write16(n - 4);
        var _ :- Write16(n - 6);
        var _ :- Write8(0);
        var _ :- Write16(|h.name|);
        var _ :- WriteBlob(h.name);
        Join6(old(written), W16(0), W16(n - 4), W16(n - 6), W8(0), W16(|h.name|), h.name);
      }
      r := Got(());
    }

    method WriteFrag(h: Hello) returns (r: Got<()>)
      requires Valid() && h.Valid()
      modifies this
      ensures Valid() && (r.Got? || r == Starved)
      ensures r.Got? ==> written == old(written) + FragBytes(h)
    {
      hide W8, W16, Hello.Valid;
      Ranges(h);
      if FragLength(h) != 0 {
        var _ :- Write16(0x0001);
        var _ :- Write16(1);
        var _ :- Write8(h.logFrag - 8);
        Join3(old(written), W16(1), W16(1), W8(h.logFrag - 8));
      }
      r := Got(());
    }

    method WritePairs(h: Hello) returns (r: Got<()>)
      requires Valid()
      modifies this
      ensures Valid() && (r.Got? || r == Starved)
      ensures r.Got? ==> written == old(written) + PairBytes(h)
    {
      hide HashPairs, PairsUnrolled;
      PreferenceUnrolled(h, 1);
      PreferenceUnrolled(h, 3);
      if h.signsEcdsa {
        var _ :- WriteHashes(h, 3);
      }
      if h.signsRsa {
        var _ :- WriteHashes(h, 1);
      }
      r := Got(());
    }

    method WriteSignatures(h: Hello) returns (r: Got<()>)
      requires Valid()
      modifies this
      ensures Valid() && (r.Got? || r == Starved)
      ensures r.Got? ==> written == old(written) + SignaturesBytes(h)
    {
      hide W16, PairBytes;
      var n := SignaturesLength(h);
      if n != 0 {
        var _ :- Write16(0x000D);
        var _ :- Write16(n - 4);
        var _ :- Write16(n - 6);
        var _ :- WritePairs(h);
        Join4(old(written), W16(0x000D), W16(n - 4), W16(n - 6), PairBytes(h));
      }
      r := Got(());
    }

    method WriteCurveIds(curves: set<nat>) returns (r: Got<()>)
      requires Valid()
      modifies this
      ensures Valid() && (r.Got? || r == Starved)
      ensures r.Got? ==> written == old(written) + CurveIds(curves, 0)
    {
      hide W16, CurveIds;
      var i := 0;
      while i < 32
        invariant 0 <= i <= 32 && Valid()
        invariant written + CurveIds(curves, i) == old(written) + CurveIds(curves, 0)
      {
        CurveIdsSplits(curves, i, written);
        if i in curves {
          var _ :- Write16(i);
        }
        i := i + 1;
      }
      CurveIdsEnds(curves);
      r := Got(());
    }

    method WriteCurveBytes(h: Hello) returns (r: Got<()>)
      requires Valid()
      modifies this
      ensures Valid() && (r.Got? || r == Starved)
      ensures r.Got? ==> written == old(written) + CurveBytes(h)
    {
      hide W16, CurveIds;
      var curves := h.curves;
      if 29 in curves {
        curves := curves - {29};
        var _ :- Write16(29);
      }
      assert curves == h.curves - {29};
      var _ :- WriteCurveIds(curves);
      r := Got(());
    }

    method WriteCurves(h: Hello) returns (r: Got<()>)
      requires Valid()
      modifies this
      ensures Valid() && (r.Got? || r == Starved)
      ensures r.Got? ==> written == old(written) + CurvesBytes(h)
    {
      hide W16, CurveBytes;
      var n := CurvesLength(h);
      if n != 0 {
        var _ :- Write16(0x000A);
        var _ :- Write16(n - 4);
        var _ :- Write16(n - 6);
        var _ :- WriteCurveBytes(h);
        Join4(old(written), W16(0x000A), W16(n - 4), W16(n - 6), CurveBytes(h));
      }
      r := Got(());
    }

    method WritePoints(h: Hello) returns (r: Got<()>)
      requires Valid()
      modifies this
      ensures Valid() && (r.Got? || r == Starved)
      ensures r.Got? ==> written == old(written) + PointsBytes(h)
    {
      hide W16;
      if h.curves != {} {
        var _ :- Write16(0x000B);
        var _ :- Write16(2);
        var _ :- Write16(0x0100);
        Join3(old(written), W16(0x000B), W16(2), W16(0x0100));
      }
      r := Got(());
    }

    method WriteNames(protocols: seq<Bytes>) returns (r: Got<()>)
      requires Valid()
      modifies this
      ensures Valid() && (r.Got? || r == Starved)
      ensures r.Got? ==> written == old(written) + NameList(protocols)
    {
      hide W8;
      var u := 0;
      while u < |protocols|
        invariant 0 <= u <= |protocols| && Valid()
        invariant written + NameList(protocols[u..]) == old(written) + NameList(protocols)
      {
        var p := protocols[u];
        NameListSplits(protocols, u);
        Join3(written, W8(|p|), p, NameList(protocols[u + 1..]));
        var _ :- Write8(|p|);
        var _ :- WriteBlob(p);
        u := u + 1;
      }
      r := Got(());
    }

    method WriteAlpn(h: Hello) returns (r: Got<()>)
      requires Valid()
      modifies this
      ensures Valid() && (r.Got? || r == Starved)
      ensures r.Got? ==> written == old(written) + AlpnBytes(h)
    {
      hide W16, NameList;
      var n := AlpnLength(h);
      if n != 0 {
        var _ :- Write16(0x0010);
        var _ :- Write16(n - 4);
        var _ :- Write16(n - 6);
        var _ :- WriteNames(h.protocols);
        Join4(old(written), W16(0x0010), W16(n - 4), W16(n - 6), NameList(h.protocols));
      }
      r := Got(());
    }

    method WriteZeros(n: nat) returns (r: Got<()>)
      requires Valid()
      modifies this
      ensures Valid() && (r.Got? || r == Starved)
      ensures r.Got? ==> written == old(written) + Zeros(n)
    {
      var i := 0;
      while i < n
        invariant 0 <= i <= n && Valid() && written == old(written) + Zeros(i)
      {
        var _ :- Write8(0);
        ZerosMore(i);
        i := i + 1;
      }
      r := Got(());
    }

    method WritePadding(h: Hello) returns (r: Got<()>)
      requires Valid()
      modifies this
      ensures Valid() && (r.Got? || r == Starved)
      ensures r.Got? ==> written == old(written) + PaddingBytes(h)
    {
      hide W16, Zeros, OwnLength, FixedLength;
      var padding := Padding(h);
      if padding.Some? {
        var _ :- Write16(0x0015);
        var _ :- Write16(padding.value);
        var _ :- WriteZeros(padding.value);
        Join3(old(written), W16(0x0015), W16(padding.value), Zeros(padding.value));
      }
      r := Got(());
    }

    method WriteSuites(suites: seq<nat>) returns (r: Got<()>)
      requires Valid()
      modifies this
      ensures Valid() && (r.Got? || r == Starved)
      ensures r.Got? ==> written == old(written) + SuiteList(suites)
    {
      hide W16;
      var i := 0;
      while i < |suites|
        invariant 0 <= i <= |suites| && Valid()
        invariant written + SuiteList(suites[i..]) == old(written) + SuiteList(suites)
      {
        assert suites[i..][1..] == suites[i + 1..];
        Join2(written, W16(suites[i]), SuiteList(suites[i + 1..]));
        var _ :- Write16(suites[i]);
        i := i + 1;
      }
      r := Got(());
    }

    method WriteHead(h: Hello) returns (r: Got<()>)
      requires Valid()
      modifies this
      ensures Valid() && (r.Got? || r == Starved)
      ensures r.Got? ==> written == old(written) + HeadBytes(h)
    {
      hide W16, W8, SuiteList;
      ghost var w := written;
      var _ :- Write16(h.version);
      var _ :- WriteBlob(h.random);
      var _ :- Write8(|h.sid|);
      var _ :- WriteBlob(h.sid);
      Join4(w, W16(h.version), h.random, W8(|h.sid|), h.sid);
      var _ :- Write16(|h.suites| * 2);
      var _ :- WriteSuites(h.suites);
      var _ :- Write8(1);
      var _ :- Write8(0);
      Join5(w, W16(h.version) + h.random + W8(|h.sid|) + h.sid,
            W16(|h.suites| * 2), SuiteList(h.suites), W8(1), W8(0));
      r := Got(());
    }

    method WriteOwnExtensions(h: Hello) returns (r: Got<()>)
      requires Valid() && h.Valid()
      modifies this
      ensures Valid() && (r.Got? || r == Starved)
      ensures r.Got? ==> written == old(written) + OwnExtensions(h)
    {
      hide RenegBytes, SniBytes, FragBytes, SignaturesBytes, CurvesBytes, PointsBytes, AlpnBytes, Hello.Valid;
      Ranges(h);
      ghost var w := written;
      var _ :- WriteReneg(h);
      var _ :- WriteSni(h);
      var _ :- WriteFrag(h);
      Join3(w, RenegBytes(h), SniBytes(h), FragBytes(h));
      var _ :- WriteSignatures(h);
      var _ :- WriteCurves(h);
      var _ :- WritePoints(h);
      var _ :- WriteAlpn(h);
      Join5(w, RenegBytes(h) + SniBytes(h) + FragBytes(h),
            SignaturesBytes(h), CurvesBytes(h), PointsBytes(h), AlpnBytes(h));
      r := Got(());
    }

    /** The whole message comes out and is hashed, whatever room there is at
        what time. */
    method WriteClientHello(h: Hello) returns (r: Got<()>)
      requires Valid() && h.Valid()
      modifies this
      ensures Valid() && (r.Got? || r == Starved)
      ensures r.Got? ==> written == old(written) + Message(h)
    {
      hide W8, W16, W24, HeadBytes, OwnExtensions, PaddingBytes, ExtLength, MessageLength;
      ghost var w := written;
      var _ :- Write8(1);
      var _ :- Write24(MessageLength(h));
      var _ :- WriteHead(h);
      Join3(w, W8(1), W24(MessageLength(h)), HeadBytes(h));
      if ExtLength(h) != 0 {
        var _ :- Write16(ExtLength(h));
        var _ :- WriteOwnExtensions(h);
        var _ :- WritePadding(h);
        Join4(w, W8(1) + W24(MessageLength(h)) + HeadBytes(h), W16(ExtLength(h)), OwnExtensions(h), PaddingBytes(h));
      }
      MessageSplits(h);
      r := Got(());
    }
  }

  // What is written after w piece by piece is written after w.

  lemma Join2(w: Bytes, a: Bytes, b: Bytes)
    ensures (w + a) + b == w + (a + b)
  {}

  lemma Join3(w: Bytes, a: Bytes, b: Bytes, c: Bytes)
    ensures ((w + a) + b) + c == w + (a + b + c)
  {}

  lemma Join4(w: Bytes, a: Bytes, b: Bytes, c: Bytes, d: Bytes)
    ensures (((w + a) + b) + c) + d == w + (a + b + c + d)
  {
    Join3(w, a, b, c);
  }

  lemma Join5(w: Bytes, a: Bytes, b: Bytes, c: Bytes, d: Bytes, e: Bytes)
    ensures ((((w + a) + b) + c) + d) + e == w + (a + b + c + d + e)
  {
    Join4(w, a, b, c, d);
  }

  lemma Join6(w: Bytes, a: Bytes, b: Bytes, c: Bytes, d: Bytes, e: Bytes, f: Bytes)
    ensures (((((w + a) + b) + c) + d) + e) + f == w + (a + b + c + d + e + f)
  {
    Join5(w, a, b, c, d, e);
  }

  lemma Ranges(h: Hello)
    requires h.Valid()
    ensures h.reneg <= 2 && |h.finished| == 12 && 9 <= h.logFrag <= 14
  {}

  lemma ChunkJoins(start: Bytes, x: Bytes, k: nat, n: nat)
    requires k + n <= |x|
    ensures (start + x[..k]) + x[k..][..n] == start + x[..k + n]
  {
    assert x[..k] + x[k..][..n] == x[..k + n];
  }

  function PairOf(h: Hello, id: nat, sign: nat): Bytes
  {
    if id in h.hashes then W8(id) + W8(sign) else []
  }

  function PairsUnrolled(h: Hello, sign: nat): Bytes
  {
    PairOf(h, 4, sign) + PairOf(h, 3, sign) + PairOf(h, 5, sign) + PairOf(h, 6, sign) + PairOf(h, 2, sign)
  }

  lemma PairsStep(h: Hello, sign: nat, first: nat, rest: seq<nat>)
    ensures HashPairs(h.hashes, sign, [first] + rest) == PairOf(h, first, sign) + HashPairs(h.hashes, sign, rest)
  {
    assert ([first] + rest)[1..] == rest;
  }

  lemma PreferenceUnrolled(h: Hello, sign: nat)
    ensures HashPairs(h.hashes, sign, PREFERENCE) == PairsUnrolled(h, sign)
  {
    hide W8, W16, HashPairs, PairOf;
    PairsStep(h, sign, 4, [3, 5, 6, 2]);
    PairsStep(h, sign, 3, [5, 6, 2]);
    PairsStep(h, sign, 5, [6, 2]);
    PairsStep(h, sign, 6, [2]);
    PairsStep(h, sign, 2, []);
    NoPairsLeft(h, sign);
    assert [4] + [3, 5, 6, 2] == PREFERENCE && [3] + [5, 6, 2] == [3, 5, 6, 2];
    assert [5] + [6, 2] == [5, 6, 2] && [6] + [2] == [6, 2] && [2] + [] == [2];
  }

  lemma NoPairsLeft(h: Hello, sign: nat)
    ensures HashPairs(h.hashes, sign, []) == []
  {}

  lemma NameListSplits(protocols: seq<Bytes>, u: nat)
    requires u < |protocols|
    ensures NameList(protocols[u..]) == W8(|protocols[u]|) + protocols[u] + NameList(protocols[u + 1..])
  {
    assert protocols[u..][1..] == protocols[u + 1..];
  }

  lemma CurveIdsSplits(curves: set<nat>, i: nat, w: Bytes)
    requires i < 32
    ensures w + CurveIds(curves, i) == (if i in curves then w + W16(i) else w) + CurveIds(curves, i + 1)
  {
    hide W16;
    var x := CurveIds(curves, i + 1);
    if i in curves {
      assert CurveIds(curves, i) == W16(i) + x;
      assert w + (W16(i) + x) == (w + W16(i)) + x;
    } else {
      assert CurveIds(curves, i) == [] + x == x;
    }
  }

  lemma CurveIdsEnds(curves: set<nat>)
    ensures CurveIds(curves, 32) == []
  {}

  lemma Splits24(n: nat)
    ensures W8(n / 65536) + W16(n % 65536) == W24(n)
  {
    var a, b := n / 65536, n % 65536;
    assert n == 256 * (256 * a + b / 256) + b % 256;
    assert n / 256 == 256 * a + b / 256;
    assert n % 256 == b % 256;
  }

  lemma ZerosMore(i: nat)
    ensures Zeros(i) + W8(0) == Zeros(i + 1)
  {}

  lemma MessageSplits(h: Hello)
    requires h.Valid()
    ensures Message(h) == W8(1) + W24(MessageLength(h)) + HeadBytes(h)
                          + (if ExtLength(h) != 0 then W16(ExtLength(h)) + OwnExtensions(h) + PaddingBytes(h) else [])
    ensures ExtLength(h) != 0 ==> Message(h) == W8(1) + W24(MessageLength(h)) + HeadBytes(h) + W16(ExtLength(h))
                                                + OwnExtensions(h) + PaddingBytes(h)
  {
    hide W8, W16, W24, HeadBytes, OwnExtensions, PaddingBytes, ExtLength, MessageLength;
  }
}
