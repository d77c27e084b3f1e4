/** A whole pattern: the scan that finds its alternatives, and the search for
    the leftmost place where one of them matches. */
module SlreRun {
  import opened Wrappers
  import opened SlreSpec
  import opened SlreMatcher

  function Step(re: string): (n: nat)
    requires re != []
    ensures 0 < n <= |re|
  {
    if OpLen(re) <= |re| then OpLen(re) else |re|
  }

  /** No brackets and no sets, and no anchor to the start. */
  predicate Flat(re: string)
  {
    re == [] || (re[0] !in "[()^" && Flat(re[Step(re)..]))
  }

  /** A regular expression of the kind considered here: flat, perhaps with an
      anchor in front. */
  predicate Regex(re: string)
  {
    Flat(if re != [] && re[0] == '^' then re[1..] else re)
    && (|re| > 1 && re[0] == '^' ==> !IsQuantifier(re[1]))
  }

  predicate FlatAt(re: string, i: nat)
    requires i <= |re|
  {
    if i == 0 then Regex(re) else Flat(re[i..])
  }

  /** Every escape from offset i on is complete and known. */
  predicate EscapesGood(re: string, i: nat)
    requires i <= |re|
    decreases |re| - i
  {
    i == |re| || ((re[i] == '\\' ==> GoodEscape(re[i..])) && EscapesGood(re, i + Step(re[i..])))
  }

  /** Where the alternatives are divided. */
  function Bars(re: string, i: nat): seq<nat>
    requires i <= |re|
    decreases |re| - i
  {
    if i == |re| then [] else (if re[i] == '|' then [i] else []) + Bars(re, i + Step(re[i..]))
  }

  predicate BarsWithin(bars: seq<nat>, end: nat)
  {
    && (forall k | 0 <= k < |bars| :: bars[k] < end)
    && (forall k, l | 0 <= k < l < |bars| :: bars[k] < bars[l])
  }

  /** Alternative k of the first end characters. */
  function Alternative(re: string, bars: seq<nat>, end: nat, k: nat): string
    requires BarsWithin(bars, end) && end <= |re| && k <= |bars|
  {
    var from := if k == 0 then 0 else bars[k - 1] + 1;
    re[from..if k == |bars| then end else bars[k]]
  }

  ghost predicate AllPatterns(re: string, bars: seq<nat>, end: nat)
    requires BarsWithin(bars, end) && end <= |re|
  {
    forall k: nat | k <= |bars| :: PatternAt(re, bars, end, k)
  }

  /** Only the first alternative can be anchored. */
  predicate PatternAt(re: string, bars: seq<nat>, end: nat, k: nat)
    requires BarsWithin(bars, end) && end <= |re| && k <= |bars|
  {
    if k == 0 then Pattern(Alternative(re, bars, end, k)) else Plain(Alternative(re, bars, end, k))
  }

  lemma {:induction false} PlainAppend(x: string, op: string)
    requires Plain(x) && op != [] && Plain(op) && OpLen(op) == |op|
    ensures Plain(x + op)
    decreases |x|
  {
    if x == [] {
      assert x + op == op;
    } else {
      assert (x + op)[OpLen(x)..] == x[OpLen(x)..] + op;
      PlainAppend(x[OpLen(x)..], op);
    }
  }

  lemma PatternAppend(x: string, op: string)
    requires Pattern(x) && op != [] && Plain(op) && OpLen(op) == |op|
    requires x == "^" ==> !IsQuantifier(op[0])
    ensures Pattern(x + op)
  {
    hide Plain, OpLen;
    if x != [] && x[0] == '^' {
      assert (x + op)[1..] == x[1..] + op;
      PlainAppend(x[1..], op);
    } else {
      PlainAppend(x, op);
    }
  }

  lemma AfterCaret(re: string, i: nat, n: nat)
    requires Regex(re) && n > 0 && i + n <= |re|
    ensures re[0..i] == "^" ==> !IsQuantifier(re[i..i + n][0])
  {
    if re[0..i] == "^" {
      assert |re[0..i]| == 1 && re[0..i][0] == re[0];
    }
  }

  /** The scan moves over one op that does not divide. */
  lemma OpKeepsPatterns(re: string, bars: seq<nat>, i: nat, n: nat)
    requires i + n <= |re| && n > 0 && BarsWithin(bars, i) && AllPatterns(re, bars, i)
    requires Plain(re[i..i + n]) && OpLen(re[i..i + n]) == n
    requires Regex(re)
    ensures BarsWithin(bars, i + n) && AllPatterns(re, bars, i + n)
  {
    hide Pattern, Plain, OpLen, Regex;
    var end := i + n;
    AfterCaret(re, i, n);
    forall k: nat | k <= |bars| ensures PatternAt(re, bars, end, k) {
      assert PatternAt(re, bars, i, k);
      if k == |bars| {
        var from := if k == 0 then 0 else bars[k - 1] + 1;
        assert re[from..i + n] == re[from..i] + re[i..i + n];
        if k == 0 {
          PatternAppend(re[0..i], re[i..i + n]);
        } else {
          PlainAppend(re[from..i], re[i..i + n]);
        }
      } else {
        assert Alternative(re, bars, end, k) == Alternative(re, bars, i, k);
      }
    }
  }

  lemma BarKeepsPatterns(re: string, bars: seq<nat>, i: nat)
    requires i < |re| && BarsWithin(bars, i) && AllPatterns(re, bars, i)
    ensures BarsWithin(bars + [i], i + 1) && AllPatterns(re, bars + [i], i + 1)
  {
    var more, end := bars + [i], i + 1;
    forall k: nat | k <= |more| ensures PatternAt(re, more, end, k) {
      if k <= |bars| {
        assert PatternAt(re, bars, i, k);
        assert Alternative(re, more, end, k) == Alternative(re, bars, i, k);
      }
    }
  }

  lemma CaretIsPattern(re: string)
    requires re != [] && re[0] == '^'
    ensures BarsWithin([], 1) && AllPatterns(re, [], 1)
  {
    assert Alternative(re, [], 1, 0) == "^";
  }

  lemma {:induction false} BarsInside(re: string, i: nat)
    requires i <= |re|
    ensures forall b <- Bars(re, i) :: i <= b < |re|
    ensures forall k, l | 0 <= k < l < |Bars(re, i)| :: Bars(re, i)[k] < Bars(re, i)[l]
    decreases |re| - i
  {
    if i < |re| {
      var later := Bars(re, i + Step(re[i..]));
      BarsInside(re, i + Step(re[i..]));
      assert Bars(re, i) == (if re[i] == '|' then [i] else []) + later;
      assert forall l | 0 <= l < |later| :: later[l] in later;
    }
  }

  /** The alternatives of a pattern. */
  function Alternatives(re: string): (alts: seq<string>)
    ensures |alts| == |Bars(re, 0)| + 1
  {
    BarsInside(re, 0);
    assert forall k | 0 <= k < |Bars(re, 0)| :: Bars(re, 0)[k] in Bars(re, 0);
    seq(|Bars(re, 0)| + 1, k requires 0 <= k <= |Bars(re, 0)| => Alternative(re, Bars(re, 0), |re|, k))
  }

  predicate StartsAnchored(re: string)
  {
    re != [] && re[0] == '^'
  }

  /** The scan finds no fault. */
  predicate Scans(re: string)
  {
    EscapesGood(re, 0) && |Bars(re, 0)| <= MAX_BRANCHES
  }

  // ----- what the alternatives match and what is found of them -----

  ghost predicate HasItems(re: string, k: nat)
  {
    k < |Alternatives(re)| && Pattern(Alternatives(re)[k])
  }

  ghost function ItemsOf(re: string, k: nat): (items: seq<Item>)
    requires HasItems(re, k)
    ensures AllValid(items)
  {
    PatternItems(Alternatives(re)[k])
  }

  /** Alternative k matches the first n characters of s. */
  ghost predicate AltMatches(re: string, k: nat, s: string, n: int, ignoreCase: bool)
  {
    HasItems(re, k) && n >= 0 && Matches(ItemsOf(re, k), s, n, ignoreCase)
  }

  ghost predicate AltFound(re: string, k: nat, s: string, ignoreCase: bool)
  {
    HasItems(re, k) && Found(ItemsOf(re, k), s, ignoreCase)
  }

  /** Alternative k answers with n characters. */
  ghost predicate AltAnswers(re: string, k: nat, s: string, n: int, ignoreCase: bool)
  {
    HasItems(re, k) && n >= 0 && Answered(ItemsOf(re, k), s, n, ignoreCase)
  }

  /** An answer is found, and is a match. */
  lemma AnswerFits(re: string, k: nat, s: string, n: int, ignoreCase: bool)
    requires AltAnswers(re, k, s, n, ignoreCase)
    ensures AltFound(re, k, s, ignoreCase) && AltMatches(re, k, s, n, ignoreCase) && n <= |s|
  {
    hide Matches, Found, Answered;
    AnsweredIsMatch(ItemsOf(re, k), s, n, ignoreCase);
  }

  function Last(re: string): nat { |Bars(re, 0)| }

  /** Those alternatives before k that were found answered with nothing. */
  ghost predicate PassedOver(re: string, k: nat, s: string, ignoreCase: bool)
  {
    forall j: nat | j < k && AltFound(re, j, s, ignoreCase) :: AltAnswers(re, j, s, 0, ignoreCase)
  }

  /** Alternative k answers with r characters; only the last one can answer for
      all with none. */
  ghost predicate Chosen(re: string, k: nat, r: int, s: string, ignoreCase: bool)
  {
    && AltAnswers(re, k, s, r, ignoreCase)
    && (r == 0 ==> k == Last(re)) && PassedOver(re, k, s, ignoreCase)
  }

  /** What an answer for the front of s says. */
  ghost predicate Says(re: string, r: int, s: string, ignoreCase: bool)
  {
    && r <= |s|
    && (r >= 0 ==> exists k: nat :: Chosen(re, k, r, s, ignoreCase))
    && (r < 0 ==> PassedOver(re, Last(re), s, ignoreCase) && !AltFound(re, Last(re), s, ignoreCase))
  }

  /** What the result of a search says: it is the end of a match that starts at
      the leftmost place where the alternatives gave one. */
  ghost predicate Located(re: string, r: int, s: string, ignoreCase: bool)
  {
    && r <= |s|
    && (r >= 0 ==> exists i: nat :: i <= r && LocatedAt(re, r, s, i, ignoreCase))
    && (r < 0 ==> forall i: nat :: i <= |s| && (StartsAnchored(re) ==> i == 0) ==> NothingAt(re, s, i, ignoreCase))
  }

  ghost predicate LocatedAt(re: string, r: int, s: string, i: nat, ignoreCase: bool)
    requires i <= r <= |s|
  {
    && (StartsAnchored(re) ==> i == 0)
    && Says(re, r - i, s[i..], ignoreCase)
    && forall h: nat :: h < i ==> NothingAt(re, s, h, ignoreCase)
  }

  ghost predicate NothingAt(re: string, s: string, i: nat, ignoreCase: bool)
    requires i <= |s|
  {
    Says(re, NO_MATCH, s[i..], ignoreCase)
  }

  class Matcher {
    const re: string
    const ignoreCase: bool
    const branches: array<nat>
    var numBranches: nat

    ghost predicate Valid()
      reads this, branches
    {
      && branches.Length == MAX_BRANCHES && numBranches <= MAX_BRANCHES
    }

    ghost function Divisions(): seq<nat>
      reads this, branches
      requires Valid()
    {
      branches[..numBranches]
    }

    constructor (re: string, ignoreCase: bool)
      ensures Valid() && Divisions() == [] && this.re == re && this.ignoreCase == ignoreCase && fresh(branches)
    {
      this.re, this.ignoreCase := re, ignoreCase;
      branches := new nat[MAX_BRANCHES](_ => 0);
      numBranches := 0;
    }

    /** The pass over the pattern: zero, or the first error. */
    method Scan() returns (error: int)
      requires Valid() && Divisions() == [] && Regex(re)
      modifies this, branches
      ensures Valid()
      ensures error == 0 || error == TOO_MANY_BRANCHES || error == INVALID_METACHARACTER
      ensures error == 0 <==> EscapesGood(re, 0) && |Bars(re, 0)| <= MAX_BRANCHES
      ensures error == 0 ==> Divisions() == Bars(re, 0)
      ensures error == 0 ==> BarsWithin(Divisions(), |re|) && AllPatterns(re, Divisions(), |re|)
    {
      hide AllPatterns, BarsWithin, FlatAt, Regex, Pattern, Plain, GoodEscape, Bars, EscapesGood;
      var i := 0;
      EmptyPatterns(re);
      while i < |re|
        invariant 0 <= i <= |re| && Valid() && FlatAt(re, i) && (i == 0 ==> numBranches == 0)
        invariant Divisions() + Bars(re, i) == Bars(re, 0)
        invariant EscapesGood(re, 0) <==> EscapesGood(re, i)
        invariant BarsWithin(Divisions(), i) && AllPatterns(re, Divisions(), i)
      {
        var step := OpLen(re[i..]);
        FlatGoesOn(re, i);
        ScanStep(re, i);
        ghost var bars := Divisions();
        if re[i] == '|' {
          if numBranches >= MAX_BRANCHES {
            return TOO_MANY_BRANCHES;
          }
          branches[numBranches] := i;
          numBranches := numBranches + 1;
          assert Divisions() == bars + [i];
          BarKeepsPatterns(re, bars, i);
        } else {
          if re[i] == '\\' && !Escape(i) {
            return INVALID_METACHARACTER;
          }
          if re[i] == '^' {
            CaretIsPattern(re);
          } else {
            GoodStep(re, i);
            OpKeepsPatterns(re, bars, i, step);
          }
        }
        i := i + step;
      }
      ScanEnd(re);
      error := 0;
    }

    /** The scan has been made. */
    ghost predicate Scanned()
      reads this, branches
    {
      && Valid() && Divisions() == Bars(re, 0)
      && BarsWithin(Divisions(), |re|) && AllPatterns(re, Divisions(), |re|)
    }

    /** One alternative after the other, until one matches something. */
    method Doh(s: string) returns (result: int)
      requires Scanned()
      ensures Says(re, result, s, ignoreCase)
    {
      hide Matches, Found, Answered, PatternItems, AllPatterns, Pattern;
      var i := 0;
      while true
        invariant 0 <= i <= numBranches
        invariant PassedOver(re, i, s, ignoreCase)
        decreases numBranches - i
      {
        var p := if i == 0 then 0 else branches[i - 1] + 1;
        var end := if i == numBranches then |re| else branches[i];
        ChoiceIsPattern(re, Divisions(), |re|, i);
        assert Alternatives(re)[i] == re[p..end];
        result := Bar(re[p..end], s, ignoreCase);
        assert Answers(result, ItemsOf(re, i), s, ignoreCase);
        if result > 0 || i == numBranches {
          assert result >= 0 ==> Chosen(re, i, result, s, ignoreCase);
          break;
        }
        i := i + 1;
      }
    }

    /** The search over the places of s. */
    method Baz(s: string) returns (result: int)
      requires Scanned()
      ensures Located(re, result, s, ignoreCase)
    {
      hide Says;
      result := -1;
      var i := 0;
      while i <= |s|
        invariant 0 <= i <= |s| + 1 && result < 0
        invariant forall h: nat :: h < i ==> NothingAt(re, s, h, ignoreCase)
        invariant StartsAnchored(re) ==> i == 0
        decreases |s| + 1 - i
      {
        result := Doh(s[i..]);
        if result >= 0 {
          SaysWithin(re, result, s[i..], ignoreCase);
          result := result + i;
          assert LocatedAt(re, result, s, i, ignoreCase);
          break;
        }
        AnyFailure(re, result, s[i..], ignoreCase);
        assert NothingAt(re, s, i, ignoreCase);
        if re != [] && re[0] == '^' {
          break;
        }
        i := i + 1;
      }
    }

    /** The tests that the scan makes of an escape. */
    predicate Escape(i: nat)
      requires i < |re| && re[i] == '\\'
      ensures Escape(i) <==> GoodEscape(re[i..])
    {
      i < |re| - 1 &&
      if re[i + 1] == 'x' then i < |re| - 3 && IsHexDigit(re[i + 2]) && IsHexDigit(re[i + 3])
      else re[i + 1] in METACHARACTERS
    }
  }

  lemma SaysWithin(re: string, r: int, s: string, ignoreCase: bool)
    requires Says(re, r, s, ignoreCase)
    ensures r <= |s|
  {}

  lemma AnyFailure(re: string, r: int, s: string, ignoreCase: bool)
    requires Says(re, r, s, ignoreCase) && r < 0
    ensures Says(re, NO_MATCH, s, ignoreCase)
  {}

  lemma ChoiceIsPattern(re: string, bars: seq<nat>, end: nat, k: nat)
    requires BarsWithin(bars, end) && end <= |re| && AllPatterns(re, bars, end) && k <= |bars|
    ensures Pattern(Alternative(re, bars, end, k))
  {
    assert PatternAt(re, bars, end, k);
  }

  lemma EmptyPatterns(re: string)
    ensures BarsWithin([], 0) && AllPatterns(re, [], 0) && (Regex(re) ==> FlatAt(re, 0))
  {}

  lemma ScanStep(re: string, i: nat)
    requires i < |re|
    ensures Bars(re, i) == (if re[i] == '|' then [i] else []) + Bars(re, i + Step(re[i..]))
    ensures EscapesGood(re, i)
            <==> (re[i] == '\\' ==> GoodEscape(re[i..])) && EscapesGood(re, i + Step(re[i..]))
  {}

  lemma ScanEnd(re: string)
    ensures Bars(re, |re|) == [] && EscapesGood(re, |re|)
  {}

  /** A complete op, as a pattern of its own. */
  lemma GoodStep(re: string, i: nat)
    requires i < |re| && FlatAt(re, i) && re[i] != '|' && re[i] != '^' && (re[i] == '\\' ==> GoodEscape(re[i..]))
    ensures var n := OpLen(re[i..]);
            i + n <= |re| && Plain(re[i..i + n]) && OpLen(re[i..i + n]) == n
  {
    var n := OpLen(re[i..]);
    assert re[0..] == re;
    var op := re[i..i + n];
    assert op[n..] == [];
  }

  lemma FlatGoesOn(re: string, i: nat)
    requires i < |re| && FlatAt(re, i)
    ensures FlatAt(re, i + Step(re[i..])) && re[i] !in "[()" && (re[i] == '^' ==> i == 0)
    ensures re[i] == '|' || re[i] == '^' ==> OpLen(re[i..]) == 1
  {
    assert re[0..] == re;
    assert re[i..][Step(re[i..])..] == re[i + Step(re[i..])..];
  }

  // ----- the whole match -----

  /** Characters i to r of s are in the language of alternative k; only the
      start of s will do if the pattern is anchored. */
  ghost predicate Spans(re: string, s: string, k: nat, i: nat, r: int, ignoreCase: bool)
  {
    i <= r <= |s| && (StartsAnchored(re) ==> i == 0) && AltMatches(re, k, s[i..], r - i, ignoreCase)
  }

  /** Some substring of s is in the language. */
  ghost predicate Occurs(re: string, s: string, ignoreCase: bool)
  {
    exists k: nat, i: nat, r: int :: Spans(re, s, k, i, r, ignoreCase)
  }

  /** Every alternative has only items whose matches are all found. */
  ghost predicate AllExhaustive(re: string, ignoreCase: bool)
  {
    forall k: nat | k <= Last(re) :: HasItems(re, k) && Exhaustive(ItemsOf(re, k), ignoreCase)
  }

  /** Some alternative before the last one can take no characters. */
  ghost predicate EarlyNullable(re: string)
  {
    exists k: nat :: k < Last(re) && HasItems(re, k) && Nullable(ItemsOf(re, k))
  }

  ghost predicate LastNullable(re: string)
  {
    HasItems(re, Last(re)) && Nullable(ItemsOf(re, Last(re)))
  }

  /** The last alternative is found everywhere. */
  ghost predicate LastIdle(re: string)
  {
    HasItems(re, Last(re)) && Idle(ItemsOf(re, Last(re)))
  }

  /** The last alternative makes up for those that were passed over. */
  ghost predicate NothingPassed(re: string)
  {
    EarlyNullable(re) ==> LastIdle(re) || (LastNullable(re) && !StartsAnchored(re))
  }

  /** A pattern whose search is complete: no match is passed over for one that
      the last alternative then misses. */
  ghost predicate Definite(re: string, ignoreCase: bool)
  {
    Scans(re) && AllExhaustive(re, ignoreCase) && NothingPassed(re)
  }

  lemma LocatedSpans(re: string, s: string, r: int, ignoreCase: bool)
    requires Located(re, r, s, ignoreCase) && r >= 0
    ensures Occurs(re, s, ignoreCase)
    ensures exists k: nat, i: nat :: Spans(re, s, k, i, r, ignoreCase)
  {
    hide AltMatches, AltAnswers, AltFound, PassedOver;
    var i: nat :| i <= r && LocatedAt(re, r, s, i, ignoreCase);
    var k: nat :| Chosen(re, k, r - i, s[i..], ignoreCase);
    AnswerFits(re, k, s[i..], r - i, ignoreCase);
    assert Spans(re, s, k, i, r, ignoreCase);
  }

  /** An alternative that can take no characters can do so at the end. */
  lemma LastAtTheEnd(re: string, ignoreCase: bool)
    requires AllExhaustive(re, ignoreCase) && LastNullable(re)
    ensures AltFound(re, Last(re), "", ignoreCase)
  {
    hide Matches, Found, Answered, Nullable, Exhaustive, ItemsOf;
    NullableMatches(ItemsOf(re, Last(re)), 0, ignoreCase);
    MatchIsFound(ItemsOf(re, Last(re)), "", 0, ignoreCase);
  }

  lemma IdleLast(re: string, s: string, ignoreCase: bool)
    requires LastIdle(re)
    ensures AltFound(re, Last(re), s, ignoreCase)
  {
    hide Found, Idle, ItemsOf;
    IdleFound(ItemsOf(re, Last(re)), s, ignoreCase);
  }

  /** An exhaustive alternative that matches where nothing was found is one
      before the last that can take no characters. */
  lemma PassedIsNullable(re: string, s: string, k: nat, n: int, ignoreCase: bool)
    requires AllExhaustive(re, ignoreCase) && AltMatches(re, k, s, n, ignoreCase) && Says(re, NO_MATCH, s, ignoreCase)
    ensures EarlyNullable(re)
  {
    hide Matches, Found, Answered, Nullable, Exhaustive, ItemsOf;
    MatchIsFound(ItemsOf(re, k), s, n, ignoreCase);
    assert AltFound(re, k, s, ignoreCase);
    AnswerFits(re, k, s, 0, ignoreCase);
    MatchOfNothing(ItemsOf(re, k), s, 0, ignoreCase);
  }

  /** Nothing is missed of a definite pattern. */
  lemma DefiniteMisses(re: string, s: string, r: int, ignoreCase: bool)
    requires Definite(re, ignoreCase) && Located(re, r, s, ignoreCase) && r < 0
    ensures !Occurs(re, s, ignoreCase)
  {
    hide Says, AltMatches, Scans, AllExhaustive, EarlyNullable, LastNullable, LastIdle, AltFound;
    if k: nat, i: nat, e: int :| Spans(re, s, k, i, e, ignoreCase) {
      assert NothingAt(re, s, i, ignoreCase);
      PassedIsNullable(re, s[i..], k, e - i, ignoreCase);
      if LastIdle(re) {
        FailsOnLast(re, s[i..], ignoreCase);
        IdleLast(re, s[i..], ignoreCase);
      } else {
        LastAtTheEnd(re, ignoreCase);
        assert NothingAt(re, s, |s|, ignoreCase);
        assert s[|s|..] == "";
        FailsOnLast(re, "", ignoreCase);
      }
    }
  }

  lemma FailsOnLast(re: string, s: string, ignoreCase: bool)
    requires Says(re, NO_MATCH, s, ignoreCase)
    ensures !AltFound(re, Last(re), s, ignoreCase)
  {}

  /** On the empty subject the last alternative alone decides. */
  lemma OnNothing(re: string, r: int, ignoreCase: bool)
    requires AllExhaustive(re, ignoreCase) && Located(re, r, "", ignoreCase)
    ensures r >= 0 <==> LastNullable(re)
    ensures EarlyNullable(re) ==> Occurs(re, "", ignoreCase)
  {
    hide Matches, Found, Nullable, Exhaustive, ItemsOf, PassedOver;
    assert ""[0..] == "";
    if r >= 0 {
      var i: nat :| i <= r && LocatedAt(re, r, "", i, ignoreCase);
      var k: nat :| Chosen(re, k, r - i, ""[i..], ignoreCase);
      AnswerFits(re, k, ""[i..], 0, ignoreCase);
      MatchOfNothing(ItemsOf(re, Last(re)), "", 0, ignoreCase);
    } else {
      assert NothingAt(re, "", 0, ignoreCase);
      if LastNullable(re) {
        LastAtTheEnd(re, ignoreCase);
      }
    }
    if k: nat :| k < Last(re) && HasItems(re, k) && Nullable(ItemsOf(re, k)) {
      NullableMatches(ItemsOf(re, k), 0, ignoreCase);
      assert Spans(re, "", k, 0, 0, ignoreCase);
    }
  }

  /** slre_match: an error of the scan, or the result of the search. Whatever is
      found is in the language; of a definite pattern nothing is missed; and on
      the empty subject it comes down to the last alternative. */
  method Match(re: string, s: string, ignoreCase: bool) returns (r: int)
    requires Regex(re)
    ensures r <= |s|
    ensures if Scans(re) then Located(re, r, s, ignoreCase) else r == TOO_MANY_BRANCHES || r == INVALID_METACHARACTER
    ensures r >= 0 ==> exists k: nat, i: nat :: Spans(re, s, k, i, r, ignoreCase)
    ensures Definite(re, ignoreCase) ==> (r >= 0 <==> Occurs(re, s, ignoreCase))
    ensures Scans(re) && AllExhaustive(re, ignoreCase) && s == "" ==> (r >= 0 <==> LastNullable(re))
  {
    hide Spans, Definite, Located, AllExhaustive, LastNullable, Occurs;
    var m := new Matcher(re, ignoreCase);
    var error := m.Scan();
    if error < 0 {
      DefiniteScans(re, ignoreCase);
      return error;
    }
    r := m.Baz(s);
    Searched(re, s, r, ignoreCase);
  }

  lemma DefiniteScans(re: string, ignoreCase: bool)
    ensures Definite(re, ignoreCase) ==> Scans(re)
  {}

  lemma Searched(re: string, s: string, r: int, ignoreCase: bool)
    requires Located(re, r, s, ignoreCase)
    ensures r <= |s|
    ensures r >= 0 ==> Occurs(re, s, ignoreCase) && exists k: nat, i: nat :: Spans(re, s, k, i, r, ignoreCase)
    ensures Definite(re, ignoreCase) && r < 0 ==> !Occurs(re, s, ignoreCase)
    ensures AllExhaustive(re, ignoreCase) && s == "" ==> (r >= 0 <==> LastNullable(re))
  {
    hide Spans, Definite, AllExhaustive, LastNullable, Occurs, LocatedAt, NothingAt;
    if r >= 0 {
      LocatedSpans(re, s, r, ignoreCase);
    } else if Definite(re, ignoreCase) {
      DefiniteMisses(re, s, r, ignoreCase);
    }
    if AllExhaustive(re, ignoreCase) && s == "" {
      OnNothing(re, r, ignoreCase);
    }
  }

  /** Every search gives a result exactly if there is something to find. */
  ghost predicate NeverMisses(re: string, ignoreCase: bool)
  {
    forall s: string, r: int | Located(re, r, s, ignoreCase) :: r >= 0 <==> Occurs(re, s, ignoreCase)
  }

  /** For exhaustive alternatives: nothing is ever missed if no early one can
      take no characters, or the last one makes up for that; and not, if the
      last one cannot take no characters but an early one can. Without an
      anchor in front that is all. */
  lemma CompleteExactly(re: string, ignoreCase: bool)
    requires AllExhaustive(re, ignoreCase) && Scans(re)
    ensures NothingPassed(re) ==> NeverMisses(re, ignoreCase)
    ensures NeverMisses(re, ignoreCase) ==> LastNullable(re) || !EarlyNullable(re)
    ensures !StartsAnchored(re) ==> (NeverMisses(re, ignoreCase) <==> LastNullable(re) || !EarlyNullable(re))
  {
    hide Located, Occurs, AllExhaustive, LastNullable, LastIdle, EarlyNullable, Scans;
    if NothingPassed(re) {
      forall s: string, r: int | Located(re, r, s, ignoreCase) ensures r >= 0 <==> Occurs(re, s, ignoreCase) {
        Searched(re, s, r, ignoreCase);
      }
    }
    if !LastNullable(re) && EarlyNullable(re) {
      NothingOnNothing(re, ignoreCase);
      OnNothing(re, NO_MATCH, ignoreCase);
    }
  }

  /** Then the search of the empty subject fails. */
  lemma NothingOnNothing(re: string, ignoreCase: bool)
    requires AllExhaustive(re, ignoreCase) && !LastNullable(re)
    ensures Located(re, NO_MATCH, "", ignoreCase)
  {
    hide Matches, Found, Answered, Nullable, Exhaustive, ItemsOf;
    forall k: nat | AltFound(re, k, "", ignoreCase) ensures AltAnswers(re, k, "", 0, ignoreCase) {
      var n := FoundIsAnswered(ItemsOf(re, k), "", ignoreCase);
      AnsweredIsMatch(ItemsOf(re, k), "", n, ignoreCase);
    }
    if AltFound(re, Last(re), "", ignoreCase) {
      FoundOfNothing(ItemsOf(re, Last(re)), ignoreCase);
    }
    assert ""[0..] == "";
    assert NothingAt(re, "", 0, ignoreCase);
  }

  // ----- there is one answer -----

  lemma ChosenOnce(re: string, s: string, k1: nat, r1: int, k2: nat, r2: int, ignoreCase: bool)
    requires Chosen(re, k1, r1, s, ignoreCase) && Chosen(re, k2, r2, s, ignoreCase) && k1 <= k2
    ensures k1 == k2 && r1 == r2
  {
    hide Answered, Found, Matches, ItemsOf;
    AnswerFits(re, k1, s, r1, ignoreCase);
    AnswerFits(re, k2, s, r2, ignoreCase);
    AltExists(re, k2, s, ignoreCase);
    OneAnswer(ItemsOf(re, k1), s, r1, if k1 < k2 then 0 else r2, ignoreCase);
  }

  /** The alternatives cannot both answer and fail. */
  lemma ChosenOrNothing(re: string, s: string, k: nat, r: int, ignoreCase: bool)
    requires Chosen(re, k, r, s, ignoreCase)
    ensures !Says(re, NO_MATCH, s, ignoreCase)
  {
    hide Answered, Found, Matches, ItemsOf;
    AnswerFits(re, k, s, r, ignoreCase);
    AltExists(re, k, s, ignoreCase);
    if Says(re, NO_MATCH, s, ignoreCase) {
      OneAnswer(ItemsOf(re, k), s, r, 0, ignoreCase);
    }
  }

  lemma SaysOnce(re: string, s: string, r1: int, r2: int, ignoreCase: bool)
    requires Says(re, r1, s, ignoreCase) && Says(re, r2, s, ignoreCase)
    ensures r1 == r2 || (r1 < 0 && r2 < 0)
  {
    hide Chosen, PassedOver;
    if r1 >= 0 {
      var k1: nat :| Chosen(re, k1, r1, s, ignoreCase);
      ChosenOrNothing(re, s, k1, r1, ignoreCase);
      if r2 >= 0 {
        var k2: nat :| Chosen(re, k2, r2, s, ignoreCase);
        if k1 <= k2 {
          ChosenOnce(re, s, k1, r1, k2, r2, ignoreCase);
        } else {
          ChosenOnce(re, s, k2, r2, k1, r1, ignoreCase);
        }
      }
    } else if r2 >= 0 {
      var k2: nat :| Chosen(re, k2, r2, s, ignoreCase);
      ChosenOrNothing(re, s, k2, r2, ignoreCase);
    }
  }

  /** Where a result starts, no other one can be passed over for it. */
  lemma FirstPlace(re: string, s: string, r: int, i: nat, h: nat, ignoreCase: bool)
    requires i <= r <= |s| && LocatedAt(re, r, s, i, ignoreCase) && h <= |s| && NothingAt(re, s, h, ignoreCase)
    ensures h != i
  {
    if h == i {
      SaysOnce(re, s[i..], r - i, NO_MATCH, ignoreCase);
    }
  }

  /** What the search says of a pattern and a subject determines its result: two
      results are the same, or are both failures. */
  lemma OneResult(re: string, s: string, r1: int, r2: int, ignoreCase: bool)
    requires Located(re, r1, s, ignoreCase) && Located(re, r2, s, ignoreCase)
    ensures r1 == r2 || (r1 < 0 && r2 < 0)
  {
    hide Says, NothingAt;
    if r1 >= 0 {
      var i: nat :| i <= r1 && LocatedAt(re, r1, s, i, ignoreCase);
      if r2 >= 0 {
        var j: nat :| j <= r2 && LocatedAt(re, r2, s, j, ignoreCase);
        if i < j {
          FirstPlace(re, s, r1, i, i, ignoreCase);
        } else if j < i {
          FirstPlace(re, s, r2, j, j, ignoreCase);
        } else {
          SaysOnce(re, s[i..], r1 - i, r2 - j, ignoreCase);
        }
      } else {
        FirstPlace(re, s, r1, i, i, ignoreCase);
      }
    } else if r2 >= 0 {
      var j: nat :| j <= r2 && LocatedAt(re, r2, s, j, ignoreCase);
      FirstPlace(re, s, r2, j, j, ignoreCase);
    }
  }

  // ----- a star that falls back -----

  lemma StarIs(re: string)
    requires re == "a*a"
    ensures Scans(re) && !StartsAnchored(re) && Last(re) == 0
    ensures HasItems(re, 0) && ItemsOf(re, 0) == [Item("a", Any(false)), Item("a", Once)]
  {
    hide Bars, EscapesGood, Items, Plain;
    ScanEnd(re);
    ScanStep(re, 2);
    ScanStep(re, 1);
    ScanStep(re, 0);
    assert re[0..3] == re;
    var a, tail := re[2..], re[1..];
    NoItems(a[1..]);
    LetterItems(a);
    assert tail[1..] == a;
    PlainQuantifier(tail);
    LetterItems(re);
    assert [re[0]] == "a" && [a[0]] == "a";
  }

  lemma LetterA(s: string, ignoreCase: bool)
    ensures Take("a", s, ignoreCase) == if s != [] && Accepts("a", s[0], ignoreCase) then Some(1) else None
    ensures Accepts("a", 'a', ignoreCase) && !Accepts("a", 'b', ignoreCase)
  {}

  lemma OneLetter(items: seq<Item>, s: string, ignoreCase: bool)
    requires items == [Item("a", Once)]
    ensures Found(items, s, ignoreCase) <==> Take("a", s, ignoreCase) == Some(1)
    ensures Found(items, s, ignoreCase) ==> Answered(items, s, 1, ignoreCase)
  {
    LetterA(s, ignoreCase);
    assert items[1..] == [];
    if s != [] {
      assert AnsweredBehind([], s, 1, 1, ignoreCase) && Found([], s[1..], ignoreCase);
    }
  }

  lemma StarFallsBack(items: seq<Item>, s: string, ignoreCase: bool)
    requires AllValid(items) && items == [Item("a", Any(false)), Item("a", Once)] && s == "aab"
    ensures Answered(items, s, 1, ignoreCase) && Matches(items, s, 2, ignoreCase)
  {
    hide Take, Found, Answered, Matches, Accepts;
    var tail := items[1..];
    assert s[0..] == s && s[1..] == "ab" && s[2..] == "b";
    LetterA(s, ignoreCase);
    LetterA("ab", ignoreCase);
    LetterA("b", ignoreCase);
    OneLetter(tail, s, ignoreCase);
    OneLetter(tail, "ab", ignoreCase);
    OneLetter(tail, "b", ignoreCase);
    assert AllTaken("a", s, 2, ignoreCase);
    assert Prefers("a", Any(false), tail, s, 0, ignoreCase);
    FirstStarAnswers(items, s, 0, 1, ignoreCase);
    AnsweredIsMatch(tail, "ab", 1, ignoreCase);
    assert RepeatThen("a", tail, s, 2, 1, ignoreCase);
    FirstStarMatches(items, s, 1, 2, ignoreCase);
  }

  lemma FirstStarAnswers(items: seq<Item>, s: string, k: nat, n: nat, ignoreCase: bool)
    requires AllValid(items) && items != [] && items[0].Item? && items[0].quantity.Any?
    requires Prefers(items[0].op, items[0].quantity, items[1..], s, k, ignoreCase)
    requires AnsweredBehind(items[1..], s, n, k, ignoreCase)
    ensures Answered(items, s, n, ignoreCase)
  {}

  lemma FirstStarMatches(items: seq<Item>, s: string, k: nat, n: nat, ignoreCase: bool)
    requires AllValid(items) && items != [] && items[0].Item? && items[0].quantity.Any?
    requires RepeatThen(items[0].op, items[1..], s, n, k, ignoreCase)
    ensures Matches(items, s, n, ignoreCase)
  {}

  /** A greedy star that falls back forgets the longer matches: the result of
      a*a in aab is 1, although the first two characters match. */
  lemma StarForgets(re: string, s: string, r: int, ignoreCase: bool)
    requires re == "a*a" && s == "aab" && Located(re, r, s, ignoreCase)
    ensures Scans(re) && r == 1 && Spans(re, s, 0, 0, 2, ignoreCase)
  {
    hide Located, LocatedAt, Says, Answered, Matches, Found, Scans, Alternatives;
    StarIs(re);
    var items := ItemsOf(re, 0);
    assert s[0..] == s;
    StarFallsBack(items, s, ignoreCase);
    OnlyAlternative(re, s, 1, ignoreCase);
    OneResult(re, s, r, 1, ignoreCase);
  }

  /** The answer of a pattern's only alternative at the start is the result. */
  lemma OnlyAlternative(re: string, s: string, n: nat, ignoreCase: bool)
    requires Last(re) == 0 && AltAnswers(re, 0, s, n, ignoreCase)
    ensures Located(re, n, s, ignoreCase)
  {
    hide Answered, ItemsOf;
    AnswerFits(re, 0, s, n, ignoreCase);
    assert s[0..] == s;
    assert Chosen(re, 0, n, s, ignoreCase);
    assert LocatedAt(re, n, s, 0, ignoreCase);
  }

  // ----- two patterns that miss something -----

  /** Where and by which alternative a result was chosen. */
  lemma ChosenAt(re: string, r: int, s: string, ignoreCase: bool) returns (i: nat, k: nat)
    requires Located(re, r, s, ignoreCase) && r >= 0
    ensures i <= r <= |s| && k <= Last(re)
    ensures AltFound(re, k, s[i..], ignoreCase) && AltMatches(re, k, s[i..], r - i, ignoreCase)
    ensures r == i ==> k == Last(re)
  {
    hide AltFound, PassedOver, AltMatches, AltAnswers;
    i :| i <= r && LocatedAt(re, r, s, i, ignoreCase);
    k :| Chosen(re, k, r - i, s[i..], ignoreCase);
    AnswerFits(re, k, s[i..], r - i, ignoreCase);
    AltExists(re, k, s[i..], ignoreCase);
  }

  lemma AltExists(re: string, k: nat, s: string, ignoreCase: bool)
    requires AltFound(re, k, s, ignoreCase)
    ensures k <= Last(re)
  {
    hide Found;
  }

  /** One character at the front, and the quantifier behind it. */
  lemma LetterItems(re: string)
    requires re != [] && re[0] !in "\\[()|^*+?" && Plain(re[1..])
    ensures Plain(re)
    ensures var tail := re[1..];
            Items(re) == if tail != [] && IsQuantifier(tail[0])
                         then (PlainBehind(tail); [Item([re[0]], QuantityOf(tail))] + Items(Behind(tail)))
                         else [Item([re[0]], Once)] + Items(tail)
  {
    assert re[..1] == [re[0]];
  }

  lemma NoItems(re: string)
    requires re == ""
    ensures Plain(re) && Items(re) == []
  {}

  lemma PlainQuantifier(re: string)
    requires re != [] && IsQuantifier(re[0]) && Plain(re[1..])
    ensures Plain(re)
  {}

  lemma StarBarIs(re: string)
    requires re == "a*|b"
    ensures Scans(re) && !StartsAnchored(re)
    ensures Last(re) == 1 && Alternatives(re)[0] == re[..2] && Alternatives(re)[1] == re[3..]
  {
    hide Bars, EscapesGood;
    ScanEnd(re);
    ScanStep(re, 3);
    ScanStep(re, 2);
    ScanStep(re, 1);
    ScanStep(re, 0);
    assert Bars(re, 0) == [2];
    assert re[0..2] == re[..2] && re[3..4] == re[3..];
  }

  lemma StarBarItems(re: string)
    requires re == "a*|b"
    ensures HasItems(re, 0) && ItemsOf(re, 0) == [Item("a", Any(false))]
    ensures HasItems(re, 1) && ItemsOf(re, 1) == [Item("b", Once)]
  {
    hide Alternatives;
    StarBarIs(re);
    var a, b := re[..2], re[3..];
    LetterItems(b);
    assert a[1..] == [a[1]] && a[1..][1..] == [];
    LetterItems(a);
    assert [a[0]] == "a" && [b[0]] == "b";
  }

  /** An alternative that matches only the empty string is passed over for the
      next one, which does not match: of a*|b on c nothing is found. */
  lemma StarBarMisses(re: string, s: string, r: int, ignoreCase: bool)
    requires re == "a*|b" && s == "c" && Located(re, r, s, ignoreCase)
    ensures Scans(re) && r < 0 && Occurs(re, s, ignoreCase)
  {
    hide Located, AltMatches, AltFound, Scans, Alternatives, Spans, HasItems, ItemsOf, Last, Matches;
    StarBarIs(re);
    StarBarItems(re);
    StarBarOccurs(re, s, 0, ignoreCase);
    if r >= 0 {
      var i, k := ChosenAt(re, r, s, ignoreCase);
      StarBarAnswers(re, k, s[i..], r - i, ignoreCase);
    }
  }

  lemma StarBarOccurs(re: string, s: string, n: nat, ignoreCase: bool)
    requires re == "a*|b" && n == 0
    ensures Spans(re, s, n, n, n, ignoreCase)
  {
    hide Alternatives, Last, ItemsOf, HasItems, Scans;
    StarBarIs(re);
    StarBarItems(re);
    var items := ItemsOf(re, n);
    assert items[1..] == [] && s[0..] == s;
    assert RepeatThen("a", items[1..], s, n, n, ignoreCase);
    assert Matches(items, s, n, ignoreCase);
  }

  lemma StarBarAnswers(re: string, k: nat, s: string, n: int, ignoreCase: bool)
    requires re == "a*|b" && (s == "c" || s == "")
    requires AltMatches(re, k, s, n, ignoreCase) && k <= Last(re)
    ensures k == 0 && n == 0
  {
    hide Alternatives, ItemsOf, HasItems, Scans;
    StarBarIs(re);
    StarBarItems(re);
    if k == 0 {
      StarAnswers(ItemsOf(re, 0), s, n, ignoreCase);
    } else {
      LetterAnswers(ItemsOf(re, 1), s, n, ignoreCase);
    }
  }

  lemma StarAnswers(items: seq<Item>, s: string, n: nat, ignoreCase: bool)
    requires items == [Item("a", Any(false))] && (s == "c" || s == "")
    requires Matches(items, s, n, ignoreCase)
    ensures n == 0
  {
    var op, tail := items[0].op, items[1..];
    var j: nat :| RepeatThen(op, tail, s, n, j, ignoreCase);
    assert s[0..] == s && tail == [];
    assert op == "a" && Take(op, s, ignoreCase) != Some(1);
    assert j == 0;
    assert Matches(tail, s, n, ignoreCase);
  }

  lemma LetterAnswers(items: seq<Item>, s: string, n: nat, ignoreCase: bool)
    requires items == [Item("b", Once)] && (s == "c" || s == "")
    ensures !Matches(items, s, n, ignoreCase)
  {
    var op, tail := items[0].op, items[1..];
    assert Take(op, s, ignoreCase).None?;
    assert !OnceThen(op, tail, s, n, ignoreCase);
  }

  lemma OptionalIs(re: string)
    requires re == "a?ab"
    ensures Scans(re) && !StartsAnchored(re) && Last(re) == 0 && Alternatives(re)[0] == re
  {
    hide Bars, EscapesGood;
    ScanEnd(re);
    ScanStep(re, 3);
    ScanStep(re, 2);
    ScanStep(re, 1);
    ScanStep(re, 0);
    assert re[0..4] == re;
  }

  lemma OptionalItems(re: string)
    requires re == "a?ab"
    ensures HasItems(re, 0) && ItemsOf(re, 0) == [Item("a", Optional), Item("a", Once), Item("b", Once)]
  {
    hide Alternatives, Items, Plain;
    OptionalIs(re);
    var b, ab, tail := re[3..], re[2..], re[1..];
    NoItems(b[1..]);
    LetterItems(b);
    assert ab[1..] == b;
    LetterItems(ab);
    assert tail[1..] == ab;
    PlainQuantifier(tail);
    LetterItems(re);
    assert [re[0]] == "a" && [ab[0]] == "a" && [b[0]] == "b";
  }

  /** An optional op that can be taken is taken for good: a?ab misses ab. */
  lemma OptionalMisses(re: string, s: string, r: int, ignoreCase: bool)
    requires re == "a?ab" && s == "ab" && Located(re, r, s, ignoreCase)
    ensures Scans(re) && r < 0 && Occurs(re, s, ignoreCase)
  {
    hide Located, AltMatches, AltFound, Scans, Alternatives, Spans, HasItems, ItemsOf, Matches, Found, Last;
    OptionalIs(re);
    OptionalItems(re);
    OptionalOccurs(re, s, 0, ignoreCase);
    if r >= 0 {
      var i, k := ChosenAt(re, r, s, ignoreCase);
      OptionalFinds(re, s[i..], ignoreCase);
    }
  }

  lemma OptionalOccurs(re: string, s: string, k: nat, ignoreCase: bool)
    requires re == "a?ab" && s == "ab" && k == 0
    ensures Spans(re, s, k, k, k + 2, ignoreCase)
  {
    hide Alternatives, Last, ItemsOf, HasItems, Scans;
    OptionalIs(re);
    OptionalItems(re);
    var items := ItemsOf(re, k);
    assert s[k..] == s && s[1..][1..] == [];
    assert Matches(items[3..], s[1..][1..], k, ignoreCase);
    assert OnceThen("b", items[3..], s[1..], k + 1, ignoreCase);
    assert Matches(items[2..], s[1..], k + 1, ignoreCase);
    assert OnceThen("a", items[2..], s, k + 2, ignoreCase);
    assert items[1..][1..] == items[2..] && items[2..][1..] == items[3..];
    assert Matches(items[1..], s, k + 2, ignoreCase);
    assert Matches(items, s, k + 2, ignoreCase);
  }

  lemma OptionalFinds(re: string, s: string, ignoreCase: bool)
    requires re == "a?ab" && (s == "ab" || s == "b" || s == "")
    ensures !AltFound(re, 0, s, ignoreCase)
  {
    hide Alternatives, Last, ItemsOf, HasItems, Scans;
    OptionalIs(re);
    OptionalItems(re);
    var items := ItemsOf(re, 0);
    var tail := items[1..];
    assert !Found(tail, s[Take("a", s, ignoreCase).GetOr(0)..], ignoreCase) by {
      assert tail[0] == Item("a", Once);
    }
  }
}
