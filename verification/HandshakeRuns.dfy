/** Two parties joined by two channels, in every order of steps and with
    records cut anywhere. Output stays pending until the party pushes it or
    a full buffer closes the record early. */
module HandshakeRuns {
  import opened Wrappers
  import opened Lines
  import opened Handshake

  /** A token in flight, and whether it is the last of its record. */
  datatype Mark = Mark(tok: Tok, last: bool)

  /** ended says that the reader has used up the record it read from. */
  datatype Channel = Channel(pending: seq<Tok>, wire: seq<Mark>, ended: bool)

  const EMPTY_CHANNEL: Channel := Channel([], [], true)

  /** Close the record that is being written. */
  function Closed(c: Channel): Channel
  {
    c.(pending := [],
       wire := c.wire + seq(|c.pending|, k requires 0 <= k < |c.pending| => Mark(c.pending[k], k == |c.pending| - 1)))
  }

  /** One step of p, writing to out and reading from inp; None if it waits. */
  function Step(p: Party, out: Channel, inp: Channel): Option<(Party, Channel, Channel)>
  {
    match WantOf(p)
    case Emits(t) => Some((Did(p, Write(t)), out.(pending := out.pending + [t]), inp))
    case Pushes => Some((Did(p, Flush), Closed(out), inp))
    case Needs =>
      if inp.wire == [] then None else
      Some((Did(p, Read(inp.wire[0].tok)), out, inp.(wire := inp.wire[1..], ended := inp.wire[0].last)))
    case Checks => Some((if inp.ended then Did(p, Quiet) else Fail(p), out, inp))
    case Thinks => Some((Did(p, Think), out, inp))
    case Rests => None
  }

  datatype System = System(client: Party, server: Party, up: Channel, down: Channel)

  datatype Move = ClientGoes | ServerGoes | CutUp | CutDown

  function Make(s: System, m: Move): Option<System>
  {
    match m
    case ClientGoes =>
      (match Step(s.client, s.up, s.down)
       case None => None
       case Some((p, up, down)) => Some(s.(client := p, up := up, down := down)))
    case ServerGoes =>
      (match Step(s.server, s.down, s.up)
       case None => None
       case Some((q, down, up)) => Some(s.(server := q, up := up, down := down)))
    case CutUp => Some(s.(up := Closed(s.up)))
    case CutDown => Some(s.(down := Closed(s.down)))
  }

  /** The record is closed: everything that was written is on the wire, in
      order, and its last byte, but no other new one, ends the record. */
  predicate Cut(c: Channel, c': Channel)
  {
    && c'.pending == [] && c.wire <= c'.wire && |c'.wire| == |c.wire| + |c.pending| && c'.ended == c.ended
    && forall k | 0 <= k < |c.pending| ::
         c'.wire[|c.wire| + k].tok == c.pending[k] && (c'.wire[|c.wire| + k].last <==> k == |c.pending| - 1)
  }

  /** At any time the buffer of either side may be closed early, and nothing
      else changes. */
  lemma CutsAnywhere(s: System)
    ensures match Make(s, CutUp) case None => false case Some(e) => Cut(s.up, e.up) && e == s.(up := e.up)
    ensures match Make(s, CutDown) case None => false case Some(e) => Cut(s.down, e.down) && e == s.(down := e.down)
  {}

  function Run(s: System, moves: seq<Move>): Option<System>
    decreases |moves|
  {
    if moves == [] then Some(s) else
    match Make(s, moves[0])
    case None => None
    case Some(s') => Run(s', moves[1..])
  }

  /** Neither party can take a step on what has reached it, whatever output
      the other one still holds back. */
  predicate Still(s: System)
  {
    && Step(s.client, s.up, s.down).None?
    && Step(s.server, s.down, s.up).None?
  }

  // A party that follows a line

  ghost function At(p: Party, l: Line<Tok>): Party
  {
    if l == [] then p else
    var before := At(p, l[..|l| - 1]);
    if Matches(WantOf(before), l[|l| - 1]) then Did(before, l[|l| - 1]) else Fail(before)
  }

  ghost predicate Follows(p: Party, l: Line<Tok>)
  {
    forall i | 0 <= i < |l| :: FollowsAt(p, l, i)
  }

  ghost predicate FollowsAt(p: Party, l: Line<Tok>, i: nat)
    requires i < |l|
  {
    Matches(WantOf(At(p, l[..i])), l[i])
  }

  lemma AtNext(p: Party, l: Line<Tok>, i: nat)
    requires i < |l| && Follows(p, l)
    ensures FollowsAt(p, l, i)
    ensures At(p, l[..i + 1]) == Did(At(p, l[..i]), l[i])
  {
    assert FollowsAt(p, l, i);
    assert l[..i + 1][..i] == l[..i];
  }

  lemma {:induction false} AtConcat(p: Party, a: Line<Tok>, b: Line<Tok>)
    ensures At(p, a + b) == At(At(p, a), b)
    decreases |b|
  {
    if b == [] {
      assert a + b == a;
    } else {
      assert (a + b)[..|a + b| - 1] == a + b[..|b| - 1];
      AtConcat(p, a, b[..|b| - 1]);
    }
  }

  lemma FollowsConcat(p: Party, a: Line<Tok>, b: Line<Tok>)
    requires Follows(p, a) && Follows(At(p, a), b)
    ensures Follows(p, a + b)
  {
    forall i | 0 <= i < |a + b| ensures FollowsAt(p, a + b, i) {
      if i < |a| {
        assert (a + b)[..i] == a[..i] && FollowsAt(p, a, i);
      } else {
        assert (a + b)[..i] == a + b[..i - |a|];
        AtConcat(p, a, b[..i - |a|]);
        assert FollowsAt(At(p, a), b, i - |a|);
      }
    }
  }

  // The invariant of one channel

  /** The token before each push of the writer is the last of its record, as far
      as it is on the wire or was the last to be read. */
  ghost predicate Marked(c: Channel, writer: Line<Tok>, read: nat)
  {
    && (forall k | 0 <= k < |c.wire| && Boundary(writer, read + k + 1) :: c.wire[k].last)
    && (Boundary(writer, read) ==> c.ended)
  }

  function Toks(wire: seq<Mark>): (r: seq<Tok>)
    ensures |r| == |wire|
  {
    seq(|wire|, k requires 0 <= k < |wire| => wire[k].tok)
  }

  ghost predicate Carries(c: Channel, writer: Line<Tok>, i: nat, reader: Line<Tok>, j: nat)
    requires i <= |writer| && j <= |reader|
  {
    var sent, got := Writes(writer[..i]), Reads(reader[..j]);
    && sent == got + Toks(c.wire) + c.pending
    && Flushed(writer[..i]) <= |got| + |c.wire|
    && Marked(c, writer, |got|)
  }

  /** A push made when n tokens were written is behind, if n are not all. */
  lemma BoundaryBehind(l: Line<Tok>, i: nat, n: nat)
    requires i <= |l| && Boundary(l, n) && n < |Writes(l[..i])|
    ensures n <= Flushed(l[..i])
  {
    var x: nat :| x < |l| && BoundaryAt(l, n, x);
    if i <= x {
      Prefix(l, i, x);
    } else {
      Next(l, x);
      Prefix(l, x + 1, i);
    }
  }

  lemma CloseKeeps(c: Channel, w: Line<Tok>, i: nat, r: Line<Tok>, j: nat)
    requires i <= |w| && j <= |r| && Carries(c, w, i, r, j)
    ensures Carries(Closed(c), w, i, r, j)
  {
    var c', got := Closed(c), |Reads(r[..j])|;
    assert Toks(c'.wire) == Toks(c.wire) + c.pending;
    forall k | 0 <= k < |c'.wire| && Boundary(w, got + k + 1) ensures c'.wire[k].last {
      if k < |c.wire| {
        assert c.wire[k].last;
      } else if k < |c'.wire| - 1 {
        BoundaryBehind(w, i, got + k + 1);
      }
    }
  }

  lemma WriteKeeps(c: Channel, w: Line<Tok>, i: nat, r: Line<Tok>, j: nat)
    requires i < |w| && j <= |r| && Carries(c, w, i, r, j) && w[i].Write?
    ensures Carries(c.(pending := c.pending + [w[i].tok]), w, i + 1, r, j)
  {
    Next(w, i);
  }

  lemma PushKeeps(c: Channel, w: Line<Tok>, i: nat, r: Line<Tok>, j: nat)
    requires i < |w| && j <= |r| && Carries(c, w, i, r, j) && w[i].Flush?
    ensures Carries(Closed(c), w, i + 1, r, j)
  {
    Next(w, i);
    CloseKeeps(c, w, i, r, j);
  }

  /** Nothing but writing and pushing changes what the writer has sent. */
  lemma WriterIdles(c: Channel, w: Line<Tok>, i: nat, r: Line<Tok>, j: nat)
    requires i < |w| && j <= |r| && Carries(c, w, i, r, j) && !w[i].Write? && !w[i].Flush?
    ensures Carries(c, w, i + 1, r, j)
  {
    Next(w, i);
  }

  lemma ReaderIdles(c: Channel, w: Line<Tok>, i: nat, r: Line<Tok>, j: nat)
    requires i <= |w| && j < |r| && Carries(c, w, i, r, j) && !r[j].Read?
    ensures Carries(c, w, i, r, j + 1)
  {
    Next(r, j);
  }

  /** The token in front is the one that the reader's line has next. */
  lemma FrontIsExpected(c: Channel, w: Line<Tok>, i: nat, r: Line<Tok>, j: nat)
    requires i <= |w| && j < |r| && Carries(c, w, i, r, j) && r[j].Read?
    requires Reads(r) <= Writes(w) && c.wire != []
    ensures c.wire[0].tok == r[j].tok
  {
    Next(r, j);
    Prefix(r, j + 1, |r|);
    Prefix(w, i, |w|);
    assert r[..|r|] == r && w[..|w|] == w;
    var got := Reads(r[..j]);
    assert Writes(w)[|got|] == Writes(w[..i])[|got|];
  }

  lemma ReadKeeps(c: Channel, w: Line<Tok>, i: nat, r: Line<Tok>, j: nat)
    requires i <= |w| && j < |r| && Carries(c, w, i, r, j) && r[j].Read?
    requires c.wire != [] && c.wire[0].tok == r[j].tok
    ensures Carries(c.(wire := c.wire[1..], ended := c.wire[0].last), w, i, r, j + 1)
  {
    Next(r, j);
    var c' := c.(wire := c.wire[1..], ended := c.wire[0].last);
    assert Toks(c.wire) == [c.wire[0].tok] + Toks(c'.wire);
    forall k | 0 <= k < |c'.wire| && Boundary(w, |Reads(r[..j])| + 1 + k + 1) ensures c'.wire[k].last {
      assert c.wire[k + 1].last;
    }
  }

  // The invariant of the system

  datatype Duet = Duet(client: Party, server: Party, up: Line<Tok>, down: Line<Tok>)
  {
    ghost predicate Valid()
    {
      Follows(client, up) && Follows(server, down) && Sound(up, down)
    }
  }

  ghost predicate Stands(ls: Duet, s: System, i: nat, j: nat)
  {
    && i <= |ls.up| && j <= |ls.down|
    && s.client == At(ls.client, ls.up[..i]) && s.server == At(ls.server, ls.down[..j])
    && Carries(s.up, ls.up, i, ls.down, j)
    && Carries(s.down, ls.down, j, ls.up, i)
  }

  /** A step of a party that has more of its line to do is the next act of the
      line, whatever the other party and the buffers have done meanwhile. */
  lemma StepFollows(p0: Party, l: Line<Tok>, i: nat, m: Line<Tok>, j: nat, p: Party, out: Channel, inp: Channel)
    requires Follows(p0, l) && i < |l| && j <= |m| && p == At(p0, l[..i])
    requires Carries(out, l, i, m, j) && Carries(inp, m, j, l, i)
    requires Reads(l) <= Writes(m) && QuietAtEnds(l, m)
    requires Step(p, out, inp).Some?
    ensures var (p', out', inp') := Step(p, out, inp).value;
            && p' == At(p0, l[..i + 1])
            && Carries(out', l, i + 1, m, j) && Carries(inp', m, j, l, i + 1)
  {
    hide Carries, Did, WantOf, Sound, QuietAtEnds, Reads, Writes, Closed, Follows, At;
    AtNext(p0, l, i);
    match WantOf(p)
    case Emits(t) =>
      WriteKeeps(out, l, i, m, j);
      ReaderIdles(inp, m, j, l, i);
    case Pushes =>
      PushKeeps(out, l, i, m, j);
      ReaderIdles(inp, m, j, l, i);
    case Needs =>
      FrontIsExpected(inp, m, j, l, i);
      WriterIdles(out, l, i, m, j);
      ReadKeeps(inp, m, j, l, i);
    case Checks =>
      EndedAtQuiet(inp, m, j, l, i);
      WriterIdles(out, l, i, m, j);
      ReaderIdles(inp, m, j, l, i);
    case Thinks =>
      WriterIdles(out, l, i, m, j);
      ReaderIdles(inp, m, j, l, i);
    case Rests =>
  }

  lemma EndedAtQuiet(c: Channel, w: Line<Tok>, i: nat, r: Line<Tok>, j: nat)
    requires i <= |w| && j < |r| && Carries(c, w, i, r, j) && r[j].Quiet? && QuietAtEnds(r, w)
    ensures c.ended
  {}

  /** At the end of its line a party has nothing left that it can do. */
  ghost predicate Rested(p0: Party, l: Line<Tok>, m: Line<Tok>)
  {
    var p := At(p0, l);
    WantOf(p).Rests? || (WantOf(p).Needs? && Reads(l) == Writes(m))
  }

  lemma RestedWaits(p0: Party, l: Line<Tok>, m: Line<Tok>, j: nat, out: Channel, inp: Channel)
    requires j <= |m| && Rested(p0, l, m) && Carries(inp, m, j, l, |l|)
    ensures Step(At(p0, l), out, inp).None?
    ensures Step(At(p0, l), out, Closed(inp)).None?
  {
    if Reads(l) == Writes(m) {
      assert l[..|l|] == l && m[..|m|] == m;
      Prefix(m, j, |m|);
      assert inp.wire == [] && inp.pending == [];
    }
  }

  ghost predicate Settled(ls: Duet)
  {
    ls.Valid() && Rested(ls.client, ls.up, ls.down) && Rested(ls.server, ls.down, ls.up)
  }

  lemma MoveKeeps(ls: Duet, s: System, i: nat, j: nat, m: Move) returns (i': nat, j': nat)
    requires Settled(ls) && Stands(ls, s, i, j) && Make(s, m).Some?
    ensures Stands(ls, Make(s, m).value, i', j')
    ensures i' + j' == i + j + if m.ClientGoes? || m.ServerGoes? then 1 else 0
  {
    hide Carries, Step, Sound, Closed, Follows, At, Rested;
    i', j' := i, j;
    assert ls.up[..|ls.up|] == ls.up && ls.down[..|ls.down|] == ls.down;
    SoundParts(ls.up, ls.down);
    match m
    case CutUp => CloseKeeps(s.up, ls.up, i, ls.down, j);
    case CutDown => CloseKeeps(s.down, ls.down, j, ls.up, i);
    case ClientGoes =>
      if i == |ls.up| {
        RestedWaits(ls.client, ls.up, ls.down, j, s.up, s.down);
      }
      StepFollows(ls.client, ls.up, i, ls.down, j, s.client, s.up, s.down);
      i' := i + 1;
    case ServerGoes =>
      if j == |ls.down| {
        RestedWaits(ls.server, ls.down, ls.up, i, s.down, s.up);
      }
      StepFollows(ls.server, ls.down, j, ls.up, i, s.server, s.down, s.up);
      j' := j + 1;
  }

  lemma SoundParts(l: Line<Tok>, m: Line<Tok>)
    requires Sound(l, m)
    ensures Reads(l) <= Writes(m) && Reads(m) <= Writes(l) && QuietAtEnds(l, m) && QuietAtEnds(m, l)
  {}

  /** A party in the middle of its line waits only for a token that the other
      side has not pushed out yet. */
  lemma WaitingIsBlocked(p0: Party, l: Line<Tok>, i: nat, m: Line<Tok>, j: nat, out: Channel, inp: Channel)
    requires Follows(p0, l) && i < |l| && j <= |m| && Carries(inp, m, j, l, i)
    requires Step(At(p0, l[..i]), out, inp).None?
    ensures Blocked(l, i, m, j)
  {
    AtNext(p0, l, i);
  }

  /** When nothing can move, both lines are done. */
  lemma StillIsDone(ls: Duet, s: System, i: nat, j: nat)
    requires Settled(ls) && Stands(ls, s, i, j) && Still(s)
    ensures i == |ls.up| && j == |ls.down|
  {
    hide Carries, Step, Closed, Follows, At, Rested;
    assert NeverStalls(ls.up, ls.down);
    if i < |ls.up| {
      WaitingIsBlocked(ls.client, ls.up, i, ls.down, j, s.up, s.down);
    }
    if j < |ls.down| {
      WaitingIsBlocked(ls.server, ls.down, j, ls.up, i, s.down, s.up);
    }
    assert !(Blocked(ls.up, i, ls.down, j) && Blocked(ls.down, j, ls.up, i)) || (i == |ls.up| && j == |ls.down|);
  }

  function Goes(moves: seq<Move>): nat
  {
    if moves == [] then 0 else Goes(moves[1..]) + if moves[0].ClientGoes? || moves[0].ServerGoes? then 1 else 0
  }

  /** Every run stays on the two lines, one act for each step of a party. */
  lemma {:induction false} RunStands(ls: Duet, s: System, i: nat, j: nat, moves: seq<Move>)
    returns (i': nat, j': nat)
    requires Settled(ls) && Stands(ls, s, i, j) && Run(s, moves).Some?
    ensures Stands(ls, Run(s, moves).value, i', j')
    ensures i' + j' == i + j + Goes(moves)
    decreases |moves|
  {
    hide Stands, Settled, Make;
    if moves == [] {
      i', j' := i, j;
    } else {
      var i1, j1 := MoveKeeps(ls, s, i, j, moves[0]);
      i', j' := RunStands(ls, Make(s, moves[0]).value, i1, j1, moves[1..]);
    }
  }

  lemma StartStands(ls: Duet)
    ensures Stands(ls, System(ls.client, ls.server, EMPTY_CHANNEL, EMPTY_CHANNEL), 0, 0)
  {}
}
