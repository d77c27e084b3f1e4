/** What the server reads of what the client wrote. */
module HelloRoundTrip {
  import opened Wrappers
  import opened HelloSpec

  // ----- lengths -----

  function Among(hashes: set<nat>, order: seq<nat>): set<nat>
  {
    set x | x in hashes && x in order
  }

  lemma AmongStep(hashes: set<nat>, order: seq<nat>)
    requires order != [] && order[0] !in order[1..]
    ensures |Among(hashes, order)| == |Among(hashes, order[1..])| + if order[0] in hashes then 1 else 0
  {
    var later := Among(hashes, order[1..]);
    assert order == [order[0]] + order[1..];
    if order[0] in hashes {
      assert Among(hashes, order) == later + {order[0]};
    } else {
      assert Among(hashes, order) == later;
    }
  }

  lemma {:induction false} PairsLength(hashes: set<nat>, sign: nat, order: seq<nat>)
    requires forall i, j | 0 <= i < j < |order| :: order[i] != order[j]
    ensures |HashPairs(hashes, sign, order)| == 2 * |Among(hashes, order)|
    decreases |order|
  {
    hide Among;
    if order != [] {
      assert forall i | 0 <= i < |order| - 1 :: order[1..][i] == order[i + 1];
      PairsLength(hashes, sign, order[1..]);
      AmongStep(hashes, order);
    } else {
      AmongNone(hashes);
    }
  }

  lemma AmongNone(hashes: set<nat>)
    ensures |Among(hashes, [])| == 0
  {
    assert Among(hashes, []) == {};
  }

  lemma AllPairsLength(h: Hello, sign: nat)
    requires h.Valid()
    ensures |HashPairs(h.hashes, sign, PREFERENCE)| == 2 * |h.hashes|
  {
    PairsLength(h.hashes, sign, PREFERENCE);
    assert PREFERENCE[0] == 4 && PREFERENCE[1] == 3 && PREFERENCE[2] == 5 && PREFERENCE[3] == 6 && PREFERENCE[4] == 2;
    assert Among(h.hashes, PREFERENCE) == h.hashes;
  }

  lemma {:induction false} IdsLength(curves: set<nat>, i: nat)
    requires i <= 32 && forall c <- curves :: c < 32
    ensures |CurveIds(curves, i)| == 2 * |set c | c in curves && c >= i|
    decreases 32 - i
  {
    var here := set c | c in curves && c >= i;
    if i < 32 {
      var later := set c | c in curves && c >= i + 1;
      IdsLength(curves, i + 1);
      if i in curves {
        assert here == later + {i};
      } else {
        assert here == later;
      }
    } else {
      assert here == {};
    }
  }

  lemma CurveBytesLength(h: Hello)
    requires h.Valid()
    ensures |CurveBytes(h)| == 2 * |h.curves|
  {
    var rest := h.curves - {29};
    IdsLength(rest, 0);
    assert (set c | c in rest && c >= 0) == rest;
    if 29 in h.curves {
      assert h.curves == rest + {29};
    } else {
      assert h.curves == rest;
    }
  }

  lemma {:induction false} NameListLength(protocols: seq<Bytes>)
    ensures |NameList(protocols)| == Names(protocols)
    decreases |protocols|
  {
    if protocols != [] {
      NameListLength(protocols[1..]);
    }
  }

  lemma {:induction false} SuiteListLength(suites: seq<nat>)
    ensures |SuiteList(suites)| == 2 * |suites|
    decreases |suites|
  {
    if suites != [] {
      SuiteListLength(suites[1..]);
    }
  }

  lemma SignaturesBytesLength(h: Hello)
    requires h.Valid()
    ensures |SignaturesBytes(h)| == SignaturesLength(h)
  {
    hide HashPairs;
    AllPairsLength(h, 1);
    AllPairsLength(h, 3);
  }

  lemma CurvesBytesLength(h: Hello)
    requires h.Valid()
    ensures |CurvesBytes(h)| == CurvesLength(h)
  {
    hide CurveBytes;
    CurveBytesLength(h);
  }

  lemma AlpnBytesLength(h: Hello)
    ensures |AlpnBytes(h)| == AlpnLength(h)
  {
    hide NameList;
    NameListLength(h.protocols);
  }

  lemma SmallBytesLength(h: Hello)
    requires h.Valid()
    ensures |RenegBytes(h)| == RenegLength(h) && |SniBytes(h)| == SniLength(h) && |FragBytes(h)| == FragLength(h)
    ensures |PointsBytes(h)| == PointsLength(h)
  {}

  /** Each extension has the length that was worked out for it. */
  lemma ExtensionLengths(h: Hello)
    requires h.Valid()
    ensures |RenegBytes(h)| == RenegLength(h) && |SniBytes(h)| == SniLength(h) && |FragBytes(h)| == FragLength(h)
    ensures |SignaturesBytes(h)| == SignaturesLength(h) && |CurvesBytes(h)| == CurvesLength(h)
    ensures |PointsBytes(h)| == PointsLength(h) && |AlpnBytes(h)| == AlpnLength(h)
  {
    hide *;
    SmallBytesLength(h);
    SignaturesBytesLength(h);
    CurvesBytesLength(h);
    AlpnBytesLength(h);
  }

  /** The padding that is added when there is nothing to pad. */
  predicate PadsNothing(h: Hello)
  {
    OwnLength(h) == 0 && Padding(h).Some?
  }

  lemma OwnExtensionsLength(h: Hello)
    requires h.Valid()
    ensures |OwnExtensions(h)| == OwnLength(h)
  {
    ExtensionLengths(h);
  }

  /** The length in the header is the number of bytes that follow, exactly
      unless a hello without other extensions is padded. */
  lemma DeclaredLength(h: Hello)
    requires h.Valid()
    ensures |Body(h)| == MessageLength(h) <==> !PadsNothing(h)
    ensures !PadsNothing(h) ==> |OwnExtensions(h) + PaddingBytes(h)| == ExtLength(h)
  {
    hide OwnLength, Padding, OwnExtensions, HeadBytes;
    OwnExtensionsLength(h);
    HeadLength(h);
  }

  lemma HeadLength(h: Hello)
    requires h.Valid()
    ensures |HeadBytes(h)| == FixedLength(h)
  {
    SuiteListLength(h.suites);
  }

  lemma BodyLength(h: Hello)
    requires h.Valid()
    ensures |Body(h)| == FixedLength(h) + if ExtLength(h) == 0 then 0 else 2 + OwnLength(h) + |PaddingBytes(h)|
    ensures |PaddingBytes(h)| == if Padding(h).Some? then 4 + Padding(h).value else 0
  {
    hide OwnLength, Padding, OwnExtensions, HeadBytes;
    OwnExtensionsLength(h);
    HeadLength(h);
  }

  /** The same without a length to be reached. */
  function Unpadded(h: Hello): Hello { h.(minLength := 0) }

  /** What the padding is for: a hello that is too short by itself gets the
      length asked for, or the least that can be had with a padding extension of
      four bytes (and two more for the list, if it is the only one). */
  lemma PaddedLength(h: Hello)
    requires h.Valid()
    ensures Unpadded(h).Valid() && Padding(Unpadded(h)).None?
    ensures var n, least := |Body(Unpadded(h))|, if OwnExtensions(h) == [] then 6 else 4;
            |Body(h)| == if n >= h.minLength then n else if n + least <= h.minLength then h.minLength else n + least
  {
    hide OwnLength, OwnExtensions, Body, PaddingBytes;
    SameLengths(h);
    BodyLength(h);
    BodyLength(Unpadded(h));
    OwnExtensionsLength(h);
  }

  lemma SameLengths(h: Hello)
    ensures OwnLength(Unpadded(h)) == OwnLength(h) && FixedLength(Unpadded(h)) == FixedLength(h)
    ensures Padding(Unpadded(h)).None?
  {}

  // ----- reading what was written, t being what follows -----

  lemma Then8(n: nat, t: Bytes, l: nat)
    requires n < 256
    ensures R8(In(W8(n) + t, 1 + l)) == Got((n, In(t, l)))
  {
    assert (W8(n) + t)[1..] == t;
  }

  lemma Then16(n: nat, t: Bytes, l: nat)
    requires n < 0x1_0000
    ensures R16(In(W16(n) + t, 2 + l)) == Got((n, In(t, l)))
  {
    assert (W16(n) + t)[2..] == t;
  }

  lemma ThenBlob(x: Bytes, t: Bytes, l: nat)
    ensures RBlob(In(x + t, |x| + l), |x|) == Got((x, In(t, l)))
  {
    assert (x + t)[..|x|] == x && (x + t)[|x|..] == t;
  }

  /** A length and the element that it opens. */
  lemma ThenOpen(n: nat, t: Bytes, l: nat)
    requires n < 0x1_0000
    ensures Open16(In(W16(n) + t, 2 + (n + l))) == Got((l, In(t, n)))
  {
    Then16(n, t, n + l);
  }

  function BitsOf(hashes: set<nat>, sign: nat, order: seq<nat>): set<nat>
  {
    if order == [] then {} else
    (if order[0] in hashes then PairBit(order[0], sign) else {}) + BitsOf(hashes, sign, order[1..])
  }

  lemma {:induction false} PairsRead(hashes: set<nat>, sign: nat, order: seq<nat>, t: Bytes, l: nat, bits: set<nat>)
    requires sign < 256 && forall i | 0 <= i < |order| :: order[i] < 256
    ensures var x := HashPairs(hashes, sign, order);
            ReadPairs(In(x + t, |x| + l), bits) == ReadPairs(In(t, l), bits + BitsOf(hashes, sign, order))
    decreases |order|
  {
    hide W8, R8, PairBit;
    var x := HashPairs(hashes, sign, order);
    if order == [] {
      assert x + t == t && bits + BitsOf(hashes, sign, order) == bits;
    } else if order[0] in hashes {
      var y := HashPairs(hashes, sign, order[1..]);
      var u := W8(sign) + (y + t);
      assert x + t == W8(order[0]) + u;
      OneByte(order[0]);
      OneByte(sign);
      Then8(order[0], u, 1 + (|y| + l));
      Then8(sign, y + t, |y| + l);
      PairsRead(hashes, sign, order[1..], t, l, bits + PairBit(order[0], sign));
      assert bits + BitsOf(hashes, sign, order)
             == bits + PairBit(order[0], sign) + BitsOf(hashes, sign, order[1..]);
    } else {
      PairsRead(hashes, sign, order[1..], t, l, bits);
      assert x == HashPairs(hashes, sign, order[1..]);
      assert BitsOf(hashes, sign, order) == BitsOf(hashes, sign, order[1..]);
    }
  }

  lemma OneByte(n: nat)
    ensures |W8(n)| == 1 && |W16(n)| == 2
  {}

  lemma {:induction false} IdsRead(curves: set<nat>, i: nat, t: Bytes, l: nat, bits: set<nat>)
    requires i <= 32
    ensures var x := CurveIds(curves, i);
            ReadIds(In(x + t, |x| + l), bits) == ReadIds(In(t, l), bits + set c | c in curves && i <= c < 32)
    decreases 32 - i
  {
    hide W16, R16;
    var x := CurveIds(curves, i);
    var here := set c | c in curves && i <= c < 32;
    if i == 32 {
      assert x + t == t && bits + here == bits;
    } else {
      var y := CurveIds(curves, i + 1);
      var later := set c | c in curves && i + 1 <= c < 32;
      if i in curves {
        assert x + t == W16(i) + (y + t);
        OneByte(i);
        Then16(i, y + t, |y| + l);
        IdsRead(curves, i + 1, t, l, bits + {i});
        assert bits + here == bits + {i} + later;
      } else {
        IdsRead(curves, i + 1, t, l, bits);
        assert x == y && here == later;
      }
    }
  }

  /** The lowest place that any of the names has among the server's. */
  function Best(names: seq<Bytes>, own: seq<Bytes>, found: Option<nat>): Option<nat>
  {
    if names == [] then found else Best(names[1..], own, Lower(found, Place(names[0], own)))
  }

  lemma {:induction false} NamesRead(names: seq<Bytes>, own: seq<Bytes>, t: Bytes, l: nat, found: Option<nat>)
    requires forall p <- names :: |p| <= 255
    ensures var x := NameList(names);
            ReadProtocols(In(x + t, |x| + l), own, found) == ReadProtocols(In(t, l), own, Best(names, own, found))
    decreases |names|
  {
    hide W8, R8, RBlob, Lower, Place;
    var x := NameList(names);
    if names == [] {
      assert x + t == t;
    } else {
      var n, y := names[0], NameList(names[1..]);
      assert x + t == W8(|n|) + (n + (y + t));
      assert n in names;
      OneByte(|n|);
      Then8(|n|, n + (y + t), |n| + (|y| + l));
      ThenBlob(n, y + t, |y| + l);
      NamesRead(names[1..], own, t, l, Lower(found, Place(n, own)));
    }
  }

  lemma {:induction false} SuitesRead(suites: seq<nat>, t: Bytes, l: nat, before: seq<nat>, reneg: nat)
    requires forall s <- suites :: s < 0x1_0000 && s != EMPTY_RENEG_SCSV
    ensures var x := SuiteList(suites);
            ReadSuites(In(x + t, |x| + l), before, reneg) == ReadSuites(In(t, l), before + suites, reneg)
    decreases |suites|
  {
    hide W16, R16;
    var x := SuiteList(suites);
    if suites == [] {
      assert x + t == t && before + suites == before;
    } else {
      var s, y := suites[0], SuiteList(suites[1..]);
      assert s in suites && forall r <- suites[1..] :: r in suites;
      assert x + t == W16(s) + (y + t);
      OneByte(s);
      Then16(s, y + t, |y| + l);
      SuitesRead(suites[1..], t, l, before + [s], reneg);
      assert before + suites == before + [s] + suites[1..];
    }
  }

  // ----- one extension after the other -----

  /** The renegotiation state, and the finished value if there is one, are the
      same on both sides. */
  predicate RenegAgrees(h: Hello, sv: Server)
  {
    h.reneg != 1 ==> h.reneg == sv.reneg && (h.reneg == 2 ==> h.finished == sv.finished)
  }

  lemma RenegReads(h: Hello, sv: Server, seen: Seen, t: Bytes, l: nat)
    requires h.Valid() && seen.reneg == sv.reneg && h.reneg != 1
    ensures var x := RenegBytes(h);
            var r := ReadExtension(In(x + t, |x| + l), sv, seen);
            if RenegAgrees(h, sv) then r == Got((seen.(reneg := 2), In(t, l))) else r.IsFailure()
  {
    hide W16, W8, R16, R8, RBlob;
    var n := RenegLength(h) - 4;
    var y := h.finished[..n - 1];
    assert RenegBytes(h) + t == W16(0xFF01) + (W16(n) + (W8(n - 1) + (y + t)));
    OneByte(n);
    OneByte(n - 1);
    OneByte(0xFF01);
    Then16(0xFF01, W16(n) + (W8(n - 1) + (y + t)), n + 2 + l);
    Then16(n, W8(n - 1) + (y + t), n + l);
    Then8(n - 1, y + t, n - 1 + l);
    ThenBlob(y, t, l);
    if h.reneg == 0 {
      assert y + t == t;
    } else {
      assert y == h.finished;
    }
  }

  lemma SniReads(h: Hello, sv: Server, seen: Seen, t: Bytes, l: nat)
    requires h.Valid() && h.name != []
    ensures var x := SniBytes(h);
            ReadExtension(In(x + t, |x| + l), sv, seen) == Got((seen.(name := h.name), In(t, l)))
  {
    hide W16, W8, R16, R8, RBlob, ReadFrag, ReadReneg, ReadSignatures, ReadCurves, ReadAlpn, Ignore16;
    var n := |h.name|;
    var inner := W8(0) + (W16(n) + (h.name + t));
    var rest := W16(n + 5) + (W16(n + 3) + inner);
    assert SniBytes(h) + t == W16(0) + rest;
    OneByte(0);
    OneByte(n);
    OneByte(n + 5);
    OneByte(n + 3);
    Then16(0, rest, n + 7 + l);
    ThenOpen(n + 5, W16(n + 3) + inner, l);
    ThenOpen(n + 3, inner, 0);
    Then8(0, W16(n) + (h.name + t), 2 + n);
    Then16(n, h.name + t, n);
    ThenBlob(h.name, t, 0);
    assert ReadNames(In(inner, n + 3), seen.name) == ReadNames(In(t, 0), h.name);
  }

  lemma FragReads(h: Hello, sv: Server, seen: Seen, t: Bytes, l: nat)
    requires h.Valid() && h.logFrag != 14
    ensures var x := FragBytes(h);
            var r := ReadExtension(In(x + t, |x| + l), sv, seen);
            if h.logFrag == 13 then r.IsFailure()
            else r == Got((seen.(logFrag := if h.logFrag < seen.logFrag then h.logFrag else seen.logFrag), In(t, l)))
  {
    hide W16, W8, R16, R8;
    var v := h.logFrag - 8;
    assert FragBytes(h) + t == W16(1) + (W16(1) + (W8(v) + t));
    OneByte(1);
    OneByte(v);
    Then16(1, W16(1) + (W8(v) + t), 3 + l);
    Then16(1, W8(v) + t, 1 + l);
    Then8(v, t, l);
  }

  /** The pairs that the client announces, as bits. */
  function HashBits(h: Hello): set<nat>
  {
    (if h.signsRsa then h.hashes else {}) + (if h.signsEcdsa then set x | x in h.hashes :: x + 8 else {})
  }

  lemma {:induction false} BitsMember(hashes: set<nat>, sign: nat, order: seq<nat>, x: nat)
    ensures x in BitsOf(hashes, sign, order) <==> exists o <- order :: o in hashes && x in PairBit(o, sign)
    decreases |order|
  {
    hide PairBit;
    if order != [] {
      BitsMember(hashes, sign, order[1..], x);
      assert forall o :: o in order <==> o == order[0] || o in order[1..];
    }
  }

  lemma BitsOfAll(hashes: set<nat>, x: nat)
    requires forall x <- hashes :: 2 <= x <= 6
    ensures x in BitsOf(hashes, 1, PREFERENCE) <==> x in hashes
    ensures x in BitsOf(hashes, 3, PREFERENCE) <==> exists y <- hashes :: x == y + 8
  {
    hide BitsOf;
    BitsMember(hashes, 1, PREFERENCE, x);
    BitsMember(hashes, 3, PREFERENCE, x);
    var p := PREFERENCE;
    assert p[0] == 4 && p[1] == 3 && p[2] == 5 && p[3] == 6 && p[4] == 2;
    forall y | y in hashes ensures y in p && PairBit(y, 1) == {y} && PairBit(y, 3) == {y + 8} {}
  }

  lemma PairBytesRead(h: Hello, t: Bytes)
    requires h.Valid()
    ensures ReadPairs(In(PairBytes(h) + t, |PairBytes(h)|), {}) == Got((HashBits(h), In(t, 0)))
  {
    hide HashPairs, ReadPairs, BitsOf, ExtLength;
    var e := if h.signsEcdsa then HashPairs(h.hashes, 3, PREFERENCE) else [];
    var r := if h.signsRsa then HashPairs(h.hashes, 1, PREFERENCE) else [];
    var bits := if h.signsEcdsa then BitsOf(h.hashes, 3, PREFERENCE) else {};
    var all := bits + if h.signsRsa then BitsOf(h.hashes, 1, PREFERENCE) else {};
    assert PairBytes(h) + t == e + (r + t);
    PairsReadIf(h.signsEcdsa, h.hashes, 3, r + t, |r|, {});
    assert {} + bits == bits;
    PairsReadIf(h.signsRsa, h.hashes, 1, t, 0, bits);
    AllBits(h);
    NoPairs(t, all);
  }

  /** The pairs of one signature algorithm, if it is supported. */
  lemma PairsReadIf(supported: bool, hashes: set<nat>, sign: nat, t: Bytes, l: nat, bits: set<nat>)
    requires sign < 256
    ensures var x := if supported then HashPairs(hashes, sign, PREFERENCE) else [];
            ReadPairs(In(x + t, |x| + l), bits)
            == ReadPairs(In(t, l), bits + if supported then BitsOf(hashes, sign, PREFERENCE) else {})
  {
    hide HashPairs, ReadPairs, BitsOf;
    if supported {
      PairsRead(hashes, sign, PREFERENCE, t, l, bits);
    } else {
      assert [] + t == t && bits + {} == bits;
    }
  }

  lemma AllBits(h: Hello)
    requires forall x <- h.hashes :: 2 <= x <= 6
    ensures (if h.signsEcdsa then BitsOf(h.hashes, 3, PREFERENCE) else {})
            + (if h.signsRsa then BitsOf(h.hashes, 1, PREFERENCE) else {}) == HashBits(h)
  {
    hide BitsOf;
    forall x: nat
      ensures x in BitsOf(h.hashes, 1, PREFERENCE) <==> x in h.hashes
      ensures x in BitsOf(h.hashes, 3, PREFERENCE) <==> exists y <- h.hashes :: x == y + 8
    {
      BitsOfAll(h.hashes, x);
    }
  }

  lemma NoPairs(t: Bytes, bits: set<nat>)
    ensures ReadPairs(In(t, 0), bits) == Got((bits, In(t, 0)))
  {}

  lemma SignaturesRead(h: Hello, sv: Server, seen: Seen, t: Bytes, l: nat)
    requires h.Valid() && SignaturesLength(h) != 0
    ensures var x := SignaturesBytes(h);
            ReadExtension(In(x + t, |x| + l), sv, seen) == Got((seen.(hashes := HashBits(h)), In(t, l)))
  {
    hide W16, R16, ReadPairs, PairBytes, HashBits;
    SignaturesBytesLength(h);
    var n := SignaturesLength(h) - 6;
    PairBytesIs(h);
    var x := PairBytes(h) + t;
    assert SignaturesBytes(h) + t == W16(0x000D) + (W16(n + 2) + (W16(n) + x));
    OneByte(0x000D);
    OneByte(n + 2);
    OneByte(n);
    Then16(0x000D, W16(n + 2) + (W16(n) + x), n + 4 + l);
    ThenOpen(n + 2, W16(n) + x, l);
    ThenOpen(n, x, 0);
    PairBytesRead(h, t);
  }

  lemma PairBytesIs(h: Hello)
    requires h.Valid() && SignaturesLength(h) != 0
    ensures |PairBytes(h)| == SignaturesLength(h) - 6 && SignaturesLength(h) <= 26
  {
    AllPairsLength(h, 1);
    AllPairsLength(h, 3);
    FewHashes(h.hashes);
  }

  lemma FewHashes(hashes: set<nat>)
    requires forall x <- hashes :: 2 <= x <= 6
    ensures |hashes| <= 5
  {
    var all: set<nat> := {2, 3, 4, 5, 6};
    assert hashes <= all && |all| == 5;
    SubsetSize(hashes, all);
  }

  lemma {:induction false} SubsetSize(a: set<nat>, b: set<nat>)
    requires a <= b
    ensures |a| <= |b|
  {
    assert b == a + (b - a);
  }

  lemma CurveBytesRead(h: Hello, t: Bytes)
    requires h.Valid()
    ensures ReadIds(In(CurveBytes(h) + t, |CurveBytes(h)|), {}) == Got((h.curves, In(t, 0)))
  {
    hide CurveIds, ReadIds, W16, R16, ExtLength;
    var first := if 29 in h.curves then W16(29) else [];
    var rest := CurveIds(h.curves - {29}, 0);
    var bits: set<nat> := if 29 in h.curves then {29} else {};
    assert CurveBytes(h) + t == first + (rest + t);
    assert ReadIds(In(first + (rest + t), |first| + |rest|), {}) == ReadIds(In(rest + t, |rest|), bits) by {
      if 29 in h.curves {
        OneId(29, rest + t, |rest|, {});
        assert {} + {29} == bits;
      } else {
        assert first + (rest + t) == rest + t;
      }
    }
    IdsRead(h.curves - {29}, 0, t, 0, bits);
    assert bits + (set c | c in h.curves - {29} && 0 <= c < 32) == h.curves;
    NoIds(t, h.curves);
  }

  lemma OneId(id: nat, t: Bytes, l: nat, bits: set<nat>)
    requires id < 32
    ensures ReadIds(In(W16(id) + t, |W16(id)| + l), bits) == ReadIds(In(t, l), bits + {id})
  {
    Then16(id, t, l);
  }

  lemma NoIds(t: Bytes, bits: set<nat>)
    ensures ReadIds(In(t, 0), bits) == Got((bits, In(t, 0)))
  {}

  lemma CurvesRead(h: Hello, sv: Server, seen: Seen, t: Bytes, l: nat)
    requires h.Valid() && h.curves != {}
    ensures var x := CurvesBytes(h);
            ReadExtension(In(x + t, |x| + l), sv, seen) == Got((seen.(curves := h.curves), In(t, l)))
  {
    hide W16, R16, ReadIds, CurveBytes;
    CurveBytesLength(h);
    FewCurves(h.curves);
    var n := CurvesLength(h) - 6;
    var x := CurveBytes(h) + t;
    assert CurvesBytes(h) + t == W16(0x000A) + (W16(n + 2) + (W16(n) + x));
    OneByte(0x000A);
    OneByte(n + 2);
    OneByte(n);
    Then16(0x000A, W16(n + 2) + (W16(n) + x), n + 4 + l);
    ThenOpen(n + 2, W16(n) + x, l);
    ThenOpen(n, x, 0);
    CurveBytesRead(h, t);
  }

  lemma FewCurves(curves: set<nat>)
    requires forall c <- curves :: c < 32
    ensures |curves| <= 32
  {
    UpToSize(32);
    SubsetSize(curves, UpTo(32));
  }

  function UpTo(n: nat): set<nat>
  {
    if n == 0 then {} else UpTo(n - 1) + {n - 1}
  }

  lemma {:induction false} UpToSize(n: nat)
    ensures |UpTo(n)| == n && forall c: nat :: c in UpTo(n) <==> c < n
  {
    if n > 0 {
      UpToSize(n - 1);
    }
  }

  /** An extension that the server does not look at. */
  lemma IgnoredReads(kind: nat, x: Bytes, sv: Server, seen: Seen, t: Bytes, l: nat)
    requires kind == 0x000B || kind == 0x0015
    requires |x| < 0x1_0000
    ensures ReadExtension(In((W16(kind) + W16(|x|) + x) + t, 4 + |x| + l), sv, seen) == Got((seen, In(t, l)))
  {
    hide W16, R16, RBlob, ReadSni, ReadFrag, ReadReneg, ReadSignatures, ReadCurves, ReadAlpn;
    assert (W16(kind) + W16(|x|) + x) + t == W16(kind) + (W16(|x|) + (x + t));
    OneByte(kind);
    OneByte(|x|);
    Then16(kind, W16(|x|) + (x + t), 2 + (|x| + l));
    Then16(|x|, x + t, |x| + l);
    ThenBlob(x, t, l);
  }

  lemma PointsRead(h: Hello, sv: Server, seen: Seen, t: Bytes, l: nat)
    requires h.curves != {}
    ensures var x := PointsBytes(h);
            ReadExtension(In(x + t, |x| + l), sv, seen) == Got((seen, In(t, l)))
  {
    hide W16, ReadExtension;
    OneByte(0x000B);
    OneByte(2);
    OneByte(0x0100);
    IgnoredReads(0x000B, W16(0x0100), sv, seen, t, l);
  }

  /** What the client's list of protocols makes of the selection. */
  function Selected(h: Hello, sv: Server): Selection
  {
    if h.protocols == [] || sv.protocols == [] then NotAsked else Asked(Best(h.protocols, sv.protocols, None))
  }

  lemma NoProtocols(t: Bytes, own: seq<Bytes>, found: Option<nat>)
    ensures ReadProtocols(In(t, 0), own, found) == Got((found, In(t, 0)))
  {}

  lemma AlpnRead(h: Hello, sv: Server, seen: Seen, t: Bytes, l: nat)
    requires h.Valid() && h.protocols != [] && seen.selected == NotAsked
    ensures var x := AlpnBytes(h);
            ReadExtension(In(x + t, |x| + l), sv, seen) == Got((seen.(selected := Selected(h, sv)), In(t, l)))
  {
    hide W16, R16, RBlob, ReadProtocols, NameList, Names, Best, ReadSni, ReadFrag, ReadReneg, ReadSignatures,
      ReadCurves;
    NameListLength(h.protocols);
    var n := Names(h.protocols);
    var y := NameList(h.protocols);
    assert AlpnBytes(h) + t == W16(0x0010) + (W16(n + 2) + (W16(n) + (y + t)));
    OneByte(0x0010);
    OneByte(n + 2);
    OneByte(n);
    Then16(0x0010, W16(n + 2) + (W16(n) + (y + t)), n + 4 + l);
    if sv.protocols == [] {
      Then16(n + 2, W16(n) + (y + t), n + 2 + l);
      assert W16(n) + (y + t) == (W16(n) + y) + t;
      ThenBlob(W16(n) + y, t, l);
      assert seen.(selected := Selected(h, sv)) == seen;
    } else {
      ThenOpen(n + 2, W16(n) + (y + t), l);
      ThenOpen(n, y + t, 0);
      NamesRead(h.protocols, sv.protocols, t, 0, None);
      NoProtocols(t, sv.protocols, Best(h.protocols, sv.protocols, None));
    }
  }

  /** Some name has place k among the server's. */
  ghost predicate HasPlace(names: seq<Bytes>, own: seq<Bytes>, k: nat)
  {
    exists x <- names :: Place(x, own) == Some(k)
  }

  lemma HasPlaceStep(names: seq<Bytes>, own: seq<Bytes>, k: nat)
    requires names != []
    ensures HasPlace(names, own, k) <==> Place(names[0], own) == Some(k) || HasPlace(names[1..], own, k)
  {
    hide Place;
    assert forall x :: x in names <==> x == names[0] || x in names[1..];
  }

  /** The selection is the lowest place that an offered name has. */
  lemma {:induction false} BestIsLowest(names: seq<Bytes>, own: seq<Bytes>, found: Option<nat>, k: nat)
    ensures Best(names, own, found) == Some(k) ==> found == Some(k) || HasPlace(names, own, k)
    ensures found == Some(k) || HasPlace(names, own, k) ==>
              Best(names, own, found).Some? && Best(names, own, found).value <= k
    decreases |names|
  {
    hide Place, HasPlace;
    if names != [] {
      var mid := Lower(found, Place(names[0], own));
      HasPlaceStep(names, own, k);
      BestIsLowest(names[1..], own, mid, k);
      if mid.Some? {
        BestIsLowest(names[1..], own, mid, mid.value);
      }
    } else {
      NoPlace(own, k);
    }
  }

  lemma NoPlace(own: seq<Bytes>, k: nat)
    ensures !HasPlace([], own, k)
  {}

  lemma {:induction false} PlaceIsFirst(name: Bytes, own: seq<Bytes>)
    ensures match Place(name, own)
            case None => name !in own
            case Some(k) => k < |own| && own[k] == name && forall j | 0 <= j < k :: own[j] != name
    decreases |own|
  {
    if own != [] {
      PlaceIsFirst(name, own[1..]);
      assert forall j | 0 < j < |own| :: own[j] == own[1..][j - 1];
    }
  }

  // ----- the whole message -----

  /** What the server is to see of the client. */
  function Expected(h: Hello, sv: Server): Seen
  {
    Seen(
      h.name,
      if h.logFrag < sv.logFrag && h.logFrag != 14 then h.logFrag else sv.logFrag,
      if h.reneg != 1 then 2 else sv.reneg,
      if SignaturesLength(h) == 0 then {2, 10} else HashBits(h),
      if h.curves == {} then {23} else h.curves,
      Selected(h, sv))
  }

  /** The server accepts the renegotiation data and the fragment length. */
  predicate Acceptable(h: Hello, sv: Server)
  {
    RenegAgrees(h, sv) && h.logFrag != 13
  }

  /** One extension is read, the others follow. */
  lemma OneMore(x: Bytes, t: Bytes, l: nat, sv: Server, seen: Seen, seen': Seen)
    requires x == [] ==> seen' == seen
    requires x != [] ==> ReadExtension(In(x + t, |x| + l), sv, seen) == Got((seen', In(t, l)))
    ensures ReadExtensions(In(x + t, |x| + l), sv, seen) == ReadExtensions(In(t, l), sv, seen')
  {
    if x == [] {
      assert x + t == t;
    }
  }

  lemma LastRead(t: Bytes, sv: Server, seen: Seen)
    ensures ReadExtensions(In(t, 0), sv, seen) == Got((seen, In(t, 0)))
  {}

  lemma PaddingRead(h: Hello, sv: Server, seen: Seen, t: Bytes)
    requires h.Valid()
    ensures ReadExtensions(In(PaddingBytes(h) + t, |PaddingBytes(h)|), sv, seen) == Got((seen, In(t, 0)))
  {
    hide W16, ReadExtension;
    OneByte(0x0015);
    if Padding(h).Some? {
      var pad := Padding(h).value;
      OneByte(pad);
      IgnoredReads(0x0015, Zeros(pad), sv, seen, t, 0);
    }
    OneMore(PaddingBytes(h), t, 0, sv, seen, seen);
    LastRead(t, sv, seen);
  }

  // The extensions from one on, each with what follows it.

  function FromAlpn(h: Hello): Bytes { AlpnBytes(h) + PaddingBytes(h) }

  function FromPoints(h: Hello): Bytes { PointsBytes(h) + FromAlpn(h) }

  function FromCurves(h: Hello): Bytes { CurvesBytes(h) + FromPoints(h) }

  function FromSignatures(h: Hello): Bytes { SignaturesBytes(h) + FromCurves(h) }

  function FromFrag(h: Hello): Bytes
    requires h.Valid()
  {
    FragBytes(h) + FromSignatures(h)
  }

  function FromSni(h: Hello): Bytes
    requires h.Valid()
  {
    SniBytes(h) + FromFrag(h)
  }

  function FromReneg(h: Hello): Bytes
    requires h.Valid()
  {
    RenegBytes(h) + FromSni(h)
  }

  /** How each of these splits in front of t. */
  lemma Splits(h: Hello, t: Bytes)
    requires h.Valid()
    ensures FromAlpn(h) + t == AlpnBytes(h) + (PaddingBytes(h) + t)
    ensures |FromAlpn(h)| == |AlpnBytes(h)| + |PaddingBytes(h)|
    ensures FromPoints(h) + t == PointsBytes(h) + (FromAlpn(h) + t)
    ensures |FromPoints(h)| == |PointsBytes(h)| + |FromAlpn(h)|
    ensures FromCurves(h) + t == CurvesBytes(h) + (FromPoints(h) + t)
    ensures |FromCurves(h)| == |CurvesBytes(h)| + |FromPoints(h)|
    ensures FromSignatures(h) + t == SignaturesBytes(h) + (FromCurves(h) + t)
    ensures |FromSignatures(h)| == |SignaturesBytes(h)| + |FromCurves(h)|
  {
    hide AlpnBytes, PaddingBytes, PointsBytes, CurvesBytes, SignaturesBytes;
  }

  lemma SplitsMore(h: Hello, t: Bytes)
    requires h.Valid()
    ensures FromFrag(h) + t == FragBytes(h) + (FromSignatures(h) + t)
    ensures |FromFrag(h)| == |FragBytes(h)| + |FromSignatures(h)|
    ensures FromSni(h) + t == SniBytes(h) + (FromFrag(h) + t)
    ensures |FromSni(h)| == |SniBytes(h)| + |FromFrag(h)|
    ensures FromReneg(h) + t == RenegBytes(h) + (FromSni(h) + t)
    ensures |FromReneg(h)| == |RenegBytes(h)| + |FromSni(h)|
  {
    hide FragBytes, SniBytes, RenegBytes, FromSignatures;
  }

  lemma AlpnOn(h: Hello, sv: Server, seen: Seen, t: Bytes)
    requires h.Valid() && seen.selected == NotAsked
    ensures ReadExtensions(In(FromAlpn(h) + t, |FromAlpn(h)|), sv, seen)
            == Got((seen.(selected := Selected(h, sv)), In(t, 0)))
  {
    hide *;
    Absent(h, sv);
    Splits(h, t);
    var p := PaddingBytes(h);
    if h.protocols != [] {
      AlpnRead(h, sv, seen, p + t, |p|);
    }
    OneMore(AlpnBytes(h), p + t, |p|, sv, seen, seen.(selected := Selected(h, sv)));
    PaddingRead(h, sv, seen.(selected := Selected(h, sv)), t);
  }

  lemma CurvesOn(h: Hello, sv: Server, seen: Seen, t: Bytes)
    requires h.Valid() && seen.selected == NotAsked && seen.curves == {23}
    ensures ReadExtensions(In(FromCurves(h) + t, |FromCurves(h)|), sv, seen)
            == Got((seen.(curves := if h.curves == {} then {23} else h.curves, selected := Selected(h, sv)), In(t, 0)))
  {
    hide *;
    Absent(h, sv);
    Splits(h, t);
    var a, o := FromAlpn(h), FromPoints(h);
    var seen' := seen.(curves := if h.curves == {} then {23} else h.curves);
    if h.curves != {} {
      CurvesRead(h, sv, seen, o + t, |o|);
      PointsRead(h, sv, seen', a + t, |a|);
    }
    OneMore(CurvesBytes(h), o + t, |o|, sv, seen, seen');
    OneMore(PointsBytes(h), a + t, |a|, sv, seen', seen');
    AlpnOn(h, sv, seen', t);
  }

  lemma SignaturesOn(h: Hello, sv: Server, seen: Seen, t: Bytes)
    requires h.Valid() && seen.selected == NotAsked && seen.hashes == {2, 10} && seen.curves == {23}
    ensures ReadExtensions(In(FromSignatures(h) + t, |FromSignatures(h)|), sv, seen)
            == Got((seen.(hashes := if SignaturesLength(h) == 0 then {2, 10} else HashBits(h),
                          curves := if h.curves == {} then {23} else h.curves,
                          selected := Selected(h, sv)), In(t, 0)))
  {
    hide *;
    Absent(h, sv);
    Splits(h, t);
    var c := FromCurves(h);
    var seen' := seen.(hashes := if SignaturesLength(h) == 0 then {2, 10} else HashBits(h));
    if SignaturesLength(h) != 0 {
      SignaturesRead(h, sv, seen, c + t, |c|);
    }
    OneMore(SignaturesBytes(h), c + t, |c|, sv, seen, seen');
    CurvesOn(h, sv, seen', t);
  }

  lemma FragOn(h: Hello, sv: Server, t: Bytes)
    requires h.Valid()
    ensures var seen := Expected(h, sv)
                        .(logFrag := sv.logFrag, hashes := {2, 10}, curves := {23}, selected := NotAsked);
            var r := ReadExtensions(In(FromFrag(h) + t, |FromFrag(h)|), sv, seen);
            if h.logFrag == 13 then r.IsFailure() else r == Got((Expected(h, sv), In(t, 0)))
  {
    hide *;
    Absent(h, sv);
    SplitsMore(h, t);
    ExpectedIs(h, sv);
    var g := FromSignatures(h);
    var seen := Expected(h, sv).(logFrag := sv.logFrag, hashes := {2, 10}, curves := {23}, selected := NotAsked);
    var seen' := seen.(logFrag := Expected(h, sv).logFrag);
    if h.logFrag != 14 {
      FragReads(h, sv, seen, g + t, |g|);
    }
    if h.logFrag == 13 {
      OneFails(FragBytes(h), g + t, |g|, sv, seen);
    } else {
      OneMore(FragBytes(h), g + t, |g|, sv, seen, seen');
      SignaturesOn(h, sv, seen', t);
    }
  }

  lemma OneFails(x: Bytes, t: Bytes, l: nat, sv: Server, seen: Seen)
    requires x != [] && ReadExtension(In(x + t, |x| + l), sv, seen).IsFailure()
    ensures ReadExtensions(In(x + t, |x| + l), sv, seen).IsFailure()
  {}

  lemma AllOn(h: Hello, sv: Server, t: Bytes)
    requires h.Valid()
    ensures var r := ReadExtensions(In(FromReneg(h) + t, |FromReneg(h)|), sv, Defaults(sv));
            if Acceptable(h, sv) then r == Got((Expected(h, sv), In(t, 0))) else r.IsFailure()
  {
    hide *;
    Absent(h, sv);
    SplitsMore(h, t);
    ExpectedIs(h, sv);
    var f, n := FromFrag(h), FromSni(h);
    var seen := Defaults(sv).(reneg := Expected(h, sv).reneg);
    var seen' := seen.(name := h.name);
    if h.reneg != 1 {
      RenegReads(h, sv, Defaults(sv), n + t, |n|);
    }
    if !RenegAgrees(h, sv) {
      OneFails(RenegBytes(h), n + t, |n|, sv, Defaults(sv));
    } else {
      OneMore(RenegBytes(h), n + t, |n|, sv, Defaults(sv), seen);
      if h.name != [] {
        SniReads(h, sv, seen, f + t, |f|);
      }
      OneMore(SniBytes(h), f + t, |f|, sv, seen, seen');
      FragOn(h, sv, t);
      assert seen' == Expected(h, sv).(logFrag := sv.logFrag, hashes := {2, 10}, curves := {23}, selected := NotAsked);
    }
  }

  lemma ExpectedIs(h: Hello, sv: Server)
    ensures var e := Expected(h, sv);
            && e.name == h.name && e.reneg == (if h.reneg != 1 then 2 else sv.reneg)
            && e.logFrag == (if h.logFrag < sv.logFrag && h.logFrag != 14 then h.logFrag else sv.logFrag)
            && e.hashes == (if SignaturesLength(h) == 0 then {2, 10} else HashBits(h))
            && e.curves == (if h.curves == {} then {23} else h.curves) && e.selected == Selected(h, sv)
    ensures Defaults(sv) == Seen([], sv.logFrag, sv.reneg, {2, 10}, {23}, NotAsked)
    ensures Acceptable(h, sv) <==> RenegAgrees(h, sv) && h.logFrag != 13
    ensures h.reneg == 1 ==> RenegAgrees(h, sv)
  {}

  lemma Absent(h: Hello, sv: Server)
    requires h.Valid()
    ensures SignaturesLength(h) == 0 <==> SignaturesBytes(h) == []
    ensures h.curves == {} <==> CurvesBytes(h) == []
    ensures h.curves == {} <==> PointsBytes(h) == []
    ensures h.protocols == [] <==> AlpnBytes(h) == []
    ensures h.protocols == [] ==> Selected(h, sv) == NotAsked
    ensures h.name == [] <==> SniBytes(h) == []
    ensures h.logFrag == 14 <==> FragBytes(h) == []
    ensures h.reneg == 1 <==> RenegBytes(h) == []
    ensures 9 <= h.logFrag && h.reneg <= 2
  {}

  /** The end of the head, from the cipher suites on. */
  function ListBytes(h: Hello): Bytes
  {
    W16(|h.suites| * 2) + (SuiteList(h.suites) + (W8(1) + W8(0)))
  }

  lemma ListsRead(h: Hello, sv: Server, t: Bytes, l: nat)
    requires h.Valid()
    ensures ReadLists(In(ListBytes(h) + t, |ListBytes(h)| + l), sv) == Got(((h.suites, true), In(t, l)))
    ensures |ListBytes(h)| == 2 + 2 * |h.suites| + 2
  {
    hide W16, W8, R16, R8, ReadSuites, SuiteList, ReadCompressions;
    var m := |h.suites| * 2;
    SuiteListLength(h.suites);
    var t1 := W8(1) + (W8(0) + t);
    assert ListBytes(h) + t == W16(m) + (SuiteList(h.suites) + t1);
    OneByte(0);
    OneByte(1);
    OneByte(m);
    ThenOpen(m, SuiteList(h.suites) + t1, 2 + l);
    SuitesRead(h.suites, t1, 0, [], sv.reneg);
    assert [] + h.suites == h.suites;
    NoSuites(t1, h.suites, sv.reneg);
    Then8(1, W8(0) + t, 1 + l);
    OnlyNull(t);
  }

  lemma HeadSplits(h: Hello, t: Bytes)
    requires h.Valid()
    ensures HeadBytes(h) + t == W16(h.version) + (h.random + (W8(|h.sid|) + (h.sid + (ListBytes(h) + t))))
    ensures |HeadBytes(h)| == 2 + 32 + 1 + |h.sid| + |ListBytes(h)|
  {
    hide W16, W8, SuiteList;
    OneByte(h.version);
    OneByte(|h.sid|);
    assert HeadBytes(h) == W16(h.version) + h.random + W8(|h.sid|) + h.sid + ListBytes(h);
  }

  lemma HeadRead(h: Hello, sv: Server, t: Bytes, l: nat)
    requires h.Valid()
    ensures ReadHead(In(HeadBytes(h) + t, |HeadBytes(h)| + l), sv)
            == Got((Fields(h.version, h.random, h.sid, h.suites, true, Defaults(sv)), In(t, l)))
  {
    hide W16, W8, R16, R8, RBlob, ReadLists, ListBytes, HeadBytes;
    var n, m := |h.sid|, |ListBytes(h)|;
    var t2 := ListBytes(h) + t;
    var t3 := W8(n) + (h.sid + t2);
    HeadSplits(h, t);
    Then16(h.version, h.random + t3, 32 + (1 + n + m + l));
    ThenBlob(h.random, t3, 1 + n + m + l);
    Then8(n, h.sid + t2, n + (m + l));
    ThenBlob(h.sid, t2, m + l);
    ListsRead(h, sv, t, l);
  }

  lemma NoSuites(t: Bytes, suites: seq<nat>, reneg: nat)
    ensures ReadSuites(In(t, 0), suites, reneg) == Got((suites, In(t, 0)))
  {}

  lemma OnlyNull(t: Bytes)
    ensures ReadCompressions(In(W8(0) + t, 1), false) == Got((true, In(t, 0)))
  {
    Then8(0, t, 0);
  }

  lemma FromRenegIs(h: Hello)
    requires h.Valid()
    ensures OwnExtensions(h) + PaddingBytes(h) == FromReneg(h)
  {
    hide AlpnBytes, PaddingBytes, PointsBytes, CurvesBytes, SignaturesBytes, FragBytes, SniBytes, RenegBytes;
  }

  /** Without any extension there is nothing to expect. */
  lemma NothingSaid(h: Hello, sv: Server)
    requires h.Valid() && ExtLength(h) == 0
    ensures Expected(h, sv) == Defaults(sv) && Acceptable(h, sv)
  {
    hide HashBits, Selected;
    Absent(h, sv);
    assert OwnLength(h) == 0;
  }

  /** Two bytes are not enough for an extension. */
  lemma NoRoom(i: In, sv: Server, seen: Seen)
    requires i.lim == 2
    ensures ReadExtensions(i, sv, seen).IsFailure()
  {
    hide ReadNames, ReadPairs, ReadIds, ReadProtocols;
    assert ReadExtension(i, sv, seen).IsFailure();
  }

  lemma PaddedParts(h: Hello, t: Bytes)
    requires h.Valid() && PadsNothing(h)
    ensures Padding(h).Some?
    ensures var pad, n := Padding(h).value, ExtLength(h);
            && PaddingBytes(h) == W16(0x0015) + W16(|Zeros(pad)|) + Zeros(pad) && |Zeros(pad)| == pad
            && |PaddingBytes(h)| == 4 + pad && n == 6 + pad < 0x1_0000
            && Body(h) + t == HeadBytes(h) + (W16(n) + (PaddingBytes(h) + t))
            && MessageLength(h) == FixedLength(h) + 2 + n
  {
    hide OwnExtensions, OwnLength, FixedLength, HeadBytes;
    OwnExtensionsLength(h);
    var n := ExtLength(h);
    OneByte(n);
    assert Body(h) == HeadBytes(h) + (W16(n) + ([] + PaddingBytes(h)));
  }

  /** The extensions of a hello that pads nothing are declared two bytes too
      long: the server looks for one more. */
  lemma PaddedFails(h: Hello, sv: Server, t: Bytes)
    requires h.Valid() && PadsNothing(h)
    ensures ReadBody(In(Body(h) + t, MessageLength(h)), sv).IsFailure()
  {
    hide W16, R16, HeadBytes, ReadHead, ReadExtensions, ReadExtension, FixedLength, Defaults, PadsNothing, Body,
      PaddingBytes, ExtLength, MessageLength, Padding, Zeros;
    var n, x, seen := ExtLength(h), PaddingBytes(h), Defaults(sv);
    PaddedParts(h, t);
    HeadLength(h);
    HeadRead(h, sv, W16(n) + (x + t), 2 + n);
    ThenOpen(n, x + t, 0);
    IgnoredReads(0x0015, Zeros(Padding(h).value), sv, seen, t, 2);
    OneMore(x, t, 2, sv, seen, seen);
    NoRoom(In(t, 2), sv, seen);
  }

  /** The server reads back what the client wrote, uses up every limit, and
      leaves what follows; it fails exactly if it does not accept the
      renegotiation data or the fragment length, or the hello is a padded one
      without other extensions. */
  lemma HelloRoundTrips(h: Hello, sv: Server, t: Bytes)
    requires h.Valid()
    ensures var r := ReadBody(In(Body(h) + t, MessageLength(h)), sv);
            if Acceptable(h, sv) && !PadsNothing(h) then
              r == Got((Fields(h.version, h.random, h.sid, h.suites, true, Expected(h, sv)), In(t, 0)))
            else r.IsFailure()
  {
    hide W16, R16, HeadBytes, ReadHead, ReadExtensions, Expected, Acceptable, OwnExtensions, PaddingBytes, FromReneg,
      ExtLength, FixedLength, Defaults, PadsNothing;
    if PadsNothing(h) {
      PaddedFails(h, sv, t);
      return;
    }
    var n := ExtLength(h);
    DeclaredLength(h);
    HeadLength(h);
    if n == 0 {
      assert Body(h) + t == HeadBytes(h) + t;
      HeadRead(h, sv, t, 0);
      NothingSaid(h, sv);
    } else {
      var x := FromReneg(h);
      FromRenegIs(h);
      OneByte(n);
      assert Body(h) + t == HeadBytes(h) + (W16(n) + (x + t));
      HeadRead(h, sv, W16(n) + (x + t), 2 + n);
      ThenOpen(n, x + t, 0);
      AllOn(h, sv, t);
    }
  }

  /** The same with the header of the message. */
  lemma MessageRoundTrips(h: Hello, sv: Server, t: Bytes)
    requires h.Valid()
    ensures var r := ReadHello(Message(h) + t, sv);
            if Acceptable(h, sv) && !PadsNothing(h) then
              r == Got((Fields(h.version, h.random, h.sid, h.suites, true, Expected(h, sv)), In(t, 0)))
            else r.IsFailure()
  {
    hide Body, ReadBody, Expected, Acceptable, ExtLength, FixedLength, PadsNothing;
    var n := MessageLength(h);
    LengthFits(h);
    var data := Message(h) + t;
    assert data[1..] == W24(n) + (Body(h) + t);
    assert data[1..][3..] == Body(h) + t;
    Digits24(n);
    HelloRoundTrips(h, sv, t);
  }

  lemma LengthFits(h: Hello)
    requires h.Valid() && ExtLength(h) < 0x1_0000
    ensures MessageLength(h) < 0x100_0000
  {}

  lemma Digits24(n: nat)
    requires n < 0x100_0000
    ensures ((n / 65536 % 256) * 256 + (n / 256 % 256)) * 256 + n % 256 == n
  {}
}
