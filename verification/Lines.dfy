/** What one side of a conversation does, in order, and when two sides fit
    together: whatever one reads the other has written, and neither waits for
    something the other has not pushed out. */
module Lines {
  /** Quiet is the check that the record read last is used up. */
  datatype Act<T> = Write(tok: T) | Flush | Read(tok: T) | Quiet | Think

  type Line<T> = seq<Act<T>>

  function Writes<T>(l: Line<T>): seq<T>
  {
    if l == [] then [] else
    Writes(l[..|l| - 1]) + match l[|l| - 1] case Write(t) => [t] case _ => []
  }

  function Reads<T>(l: Line<T>): seq<T>
  {
    if l == [] then [] else
    Reads(l[..|l| - 1]) + match l[|l| - 1] case Read(t) => [t] case _ => []
  }

  /** How many written tokens have been pushed out for sure. */
  function Flushed<T>(l: Line<T>): (r: nat)
    ensures r <= |Writes(l)|
  {
    if l == [] then 0 else
    if l[|l| - 1].Flush? then |Writes(l)| else Flushed(l[..|l| - 1])
  }

  lemma {:induction false} Concat<T>(a: Line<T>, b: Line<T>)
    ensures Writes(a + b) == Writes(a) + Writes(b)
    ensures Reads(a + b) == Reads(a) + Reads(b)
    ensures Flushed(a + b) >= Flushed(a)
    ensures Flushed(a) == |Writes(a)| ==> Flushed(a + b) == |Writes(a)| + Flushed(b)
    decreases |b|
  {
    if b == [] {
      assert a + b == a;
    } else {
      assert (a + b)[..|a + b| - 1] == a + b[..|b| - 1];
      Concat(a, b[..|b| - 1]);
    }
  }

  /** One act more of a longer line. */
  lemma Next<T>(l: Line<T>, i: nat)
    requires i < |l|
    ensures Writes(l[..i + 1]) == Writes(l[..i]) + match l[i] case Write(t) => [t] case _ => []
    ensures Reads(l[..i + 1]) == Reads(l[..i]) + match l[i] case Read(t) => [t] case _ => []
    ensures Flushed(l[..i + 1]) == if l[i].Flush? then |Writes(l[..i])| else Flushed(l[..i])
  {
    assert l[..i + 1][..i] == l[..i];
  }

  /** What is done after i acts is a prefix of what is done after j. */
  lemma Prefix<T>(l: Line<T>, i: nat, j: nat)
    requires i <= j <= |l|
    ensures Writes(l[..i]) <= Writes(l[..j]) && Reads(l[..i]) <= Reads(l[..j])
    ensures Flushed(l[..i]) <= Flushed(l[..j])
  {
    assert l[..j] == l[..i] + l[i..j];
    Concat(l[..i], l[i..j]);
  }

  /** The line pushes at a moment when it has written n tokens. */
  ghost predicate Boundary<T>(l: Line<T>, n: nat)
  {
    exists x: nat :: x < |l| && BoundaryAt(l, n, x)
  }

  predicate BoundaryAt<T>(l: Line<T>, n: nat, x: nat)
    requires x < |l|
  {
    l[x].Flush? && |Writes(l[..x])| == n
  }

  /** Reader l checks for the end of a record only where writer m pushes. */
  ghost predicate QuietAtEnds<T>(l: Line<T>, m: Line<T>)
  {
    forall i | 0 <= i < |l| && l[i].Quiet? :: Boundary(m, |Reads(l[..i])|)
  }

  /** After i acts, l can do nothing until m has done more than j. */
  predicate Blocked<T>(l: Line<T>, i: nat, m: Line<T>, j: nat)
    requires i <= |l| && j <= |m|
  {
    i == |l| || (l[i].Read? && |Reads(l[..i])| >= Flushed(m[..j]))
  }

  ghost predicate NeverStalls<T>(l: Line<T>, m: Line<T>)
  {
    forall i, j | 0 <= i <= |l| && 0 <= j <= |m| && (i < |l| || j < |m|) ::
      !(Blocked(l, i, m, j) && Blocked(m, j, l, i))
  }

  /** Each side reads what the other writes, as far as it reads. */
  ghost predicate Sound<T>(l: Line<T>, m: Line<T>)
  {
    && Reads(l) <= Writes(m) && Reads(m) <= Writes(l)
    && QuietAtEnds(l, m) && QuietAtEnds(m, l)
    && NeverStalls(l, m)
  }

  /** And nothing is left over at the end. */
  ghost predicate Fit<T>(l: Line<T>, m: Line<T>)
  {
    && Sound(l, m)
    && Reads(l) == Writes(m) && Reads(m) == Writes(l)
    && Flushed(l) == |Writes(l)| && Flushed(m) == |Writes(m)|
  }

  lemma SoundSymmetric<T>(l: Line<T>, m: Line<T>)
    requires Sound(l, m)
    ensures Sound(m, l)
  {
    forall i, j | 0 <= i <= |m| && 0 <= j <= |l| && (i < |m| || j < |l|)
      ensures !(Blocked(m, i, l, j) && Blocked(l, j, m, i))
    {
      assert !(Blocked(l, j, m, i) && Blocked(m, i, l, j));
    }
  }

  ghost predicate Speaks<T>(l: Line<T>)
  {
    forall a <- l :: a.Write? || a.Flush? || a.Think?
  }

  ghost predicate Listens<T>(l: Line<T>)
  {
    forall a <- l :: a.Read? || a.Quiet? || a.Think?
  }

  lemma {:induction false} SpeakerReadsNothing<T>(l: Line<T>)
    ensures Speaks(l) ==> Reads(l) == []
    ensures Listens(l) ==> Writes(l) == [] && Flushed(l) == 0
  {
    if l != [] {
      SpeakerReadsNothing(l[..|l| - 1]);
      assert l[|l| - 1] in l;
      assert forall a <- l[..|l| - 1] :: a in l;
    }
  }

  lemma ListenerGoesOn<T>(l: Line<T>, m: Line<T>, j: nat)
    requires Flushed(l) == |Writes(l)| && Reads(m) <= Writes(l) && j < |m|
    ensures !Blocked(m, j, l, |l|)
  {
    Next(m, j);
    Prefix(m, j + 1, |m|);
    assert m[..|m|] == m && l[..|l|] == l;
  }

  /** One side speaks and pushes, the other listens, perhaps not to the end. */
  lemma FlightIsSound<T>(l: Line<T>, m: Line<T>)
    requires Speaks(l) && Flushed(l) == |Writes(l)|
    requires Listens(m) && Reads(m) <= Writes(l) && QuietAtEnds(m, l)
    ensures Sound(l, m)
    ensures Reads(m) == Writes(l) ==> Fit(l, m)
  {
    hide Writes, Reads, Flushed, Boundary;
    SpeakerReadsNothing(l);
    SpeakerReadsNothing(m);
    forall i, j | 0 <= i <= |l| && 0 <= j <= |m| && (i < |l| || j < |m|)
      ensures !(Blocked(l, i, m, j) && Blocked(m, j, l, i))
    {
      if i < |l| {
        assert l[i] in l;
      } else {
        ListenerGoesOn(l, m, j);
      }
    }
    forall i | 0 <= i < |l| ensures !l[i].Quiet? {
      assert l[i] in l;
    }
  }

  lemma BoundaryShifts<T>(a: Line<T>, b: Line<T>, n: nat)
    ensures Boundary(a, n) ==> Boundary(a + b, n)
    ensures Boundary(b, n) ==> Boundary(a + b, |Writes(a)| + n)
  {
    if Boundary(a, n) {
      var x: nat :| x < |a| && BoundaryAt(a, n, x);
      assert (a + b)[..x] == a[..x];
      assert BoundaryAt(a + b, n, x);
    }
    if Boundary(b, n) {
      var x: nat :| x < |b| && BoundaryAt(b, n, x);
      assert (a + b)[..|a| + x] == a + b[..x];
      Concat(a, b[..x]);
      assert BoundaryAt(a + b, |Writes(a)| + n, |a| + x);
    }
  }

  lemma QuietComposes<T>(a1: Line<T>, a2: Line<T>, b1: Line<T>, b2: Line<T>)
    requires QuietAtEnds(a1, b1) && QuietAtEnds(a2, b2) && Reads(a1) == Writes(b1)
    ensures QuietAtEnds(a1 + a2, b1 + b2)
  {
    hide Boundary, Reads, Writes;
    forall i | 0 <= i < |a1 + a2| && (a1 + a2)[i].Quiet?
      ensures Boundary(b1 + b2, |Reads((a1 + a2)[..i])|)
    {
      if i < |a1| {
        assert (a1 + a2)[..i] == a1[..i];
        BoundaryShifts(b1, b2, |Reads(a1[..i])|);
      } else {
        assert (a1 + a2)[..i] == a1 + a2[..i - |a1|];
        Concat(a1, a2[..i - |a1|]);
        BoundaryShifts(b1, b2, |Reads(a2[..i - |a1|])|);
      }
    }
  }

  /** Where i acts into a1 + a2 stand, as seen from the part they are in. */
  lemma BlockedComposes<T>(a1: Line<T>, a2: Line<T>, b1: Line<T>, b2: Line<T>, i: nat, j: nat)
    requires Fit(a1, b1)
    requires i <= |a1 + a2| && j <= |b1 + b2|
    requires Blocked(a1 + a2, i, b1 + b2, j)
    ensures i < |a1| ==> j < |b1| && Blocked(a1, i, b1, j)
    ensures i >= |a1| && j >= |b1| ==> Blocked(a2, i - |a1|, b2, j - |b1|)
    ensures i >= |a1| && j < |b1| ==> Blocked(a1, |a1|, b1, j)
  {
    var a, b := a1 + a2, b1 + b2;
    if j >= |b1| {
      assert b[..j] == b1 + b2[..j - |b1|];
      Concat(b1, b2[..j - |b1|]);
    } else {
      assert b[..j] == b1[..j];
    }
    if i < |a1| {
      assert a[..i] == a1[..i] && a[i] == a1[i];
      Next(a1, i);
      Prefix(a1, i + 1, |a1|);
      assert a1[..|a1|] == a1;
    } else {
      assert a[..i] == a1 + a2[..i - |a1|];
      Concat(a1, a2[..i - |a1|]);
    }
  }

  /** A conversation that fits can be put before another. */
  lemma FitComposes<T>(a1: Line<T>, a2: Line<T>, b1: Line<T>, b2: Line<T>)
    requires Fit(a1, b1) && Sound(a2, b2)
    ensures Sound(a1 + a2, b1 + b2)
    ensures Fit(a2, b2) ==> Fit(a1 + a2, b1 + b2)
  {
    hide Blocked, Boundary, Writes, Reads, Flushed;
    Concat(a1, a2);
    Concat(b1, b2);
    QuietComposes(a1, a2, b1, b2);
    QuietComposes(b1, b2, a1, a2);
    SoundSymmetric(a1, b1);
    forall i, j | 0 <= i <= |a1 + a2| && 0 <= j <= |b1 + b2| && (i < |a1 + a2| || j < |b1 + b2|)
      ensures !(Blocked(a1 + a2, i, b1 + b2, j) && Blocked(b1 + b2, j, a1 + a2, i))
    {
      if i >= |a1| && j >= |b1| {
        assert !(Blocked(a2, i - |a1|, b2, j - |b1|) && Blocked(b2, j - |b1|, a2, i - |a1|));
      } else if i < |a1| && j < |b1| {
        assert !(Blocked(a1, i, b1, j) && Blocked(b1, j, a1, i));
      }
      if Blocked(a1 + a2, i, b1 + b2, j) && Blocked(b1 + b2, j, a1 + a2, i) {
        if i < |a1| || j >= |b1| {
          BlockedComposes(a1, a2, b1, b2, i, j);
        }
        if j < |b1| || i >= |a1| {
          BlockedComposes(b1, b2, a1, a2, j, i);
        }
      }
    }
  }
}
