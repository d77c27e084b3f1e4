/** The matcher itself: bar, doh, baz and foo, on patterns without brackets
    and sets. A result is an error below zero or the number of characters
    matched. */
module SlreMatcher {
  import opened Wrappers
  import opened SlreSpec

  const NO_MATCH: int := -1
  const UNEXPECTED_QUANTIFIER: int := -2
  const INVALID_METACHARACTER: int := -6
  const TOO_MANY_BRANCHES: int := -8
  const MAX_BRANCHES: nat := 100

  /** What a matcher's answer says about a list of items. */
  ghost predicate Answers(r: int, items: seq<Item>, s: string, ignoreCase: bool)
    requires AllValid(items)
  {
    && r <= |s|
    && (r >= 0 <==> Found(items, s, ignoreCase))
    && (r >= 0 ==> Answered(items, s, r, ignoreCase))
  }

  method MatchOp(op: string, c: char, ignoreCase: bool) returns (r: int)
    requires Complete(op) && op[0] != '^'
    ensures r == if Take(op, [c], ignoreCase) == Some(1) then 1 else NO_MATCH
  {
    var ok;
    if op[0] == '\\' {
      match op[1]
      case 'S' => ok := !IsSpace(c);
      case 's' => ok := IsSpace(c);
      case 'd' => ok := IsDigit(c);
      case 'b' => ok := c as int == 8;
      case 'f' => ok := c as int == 12;
      case 'n' => ok := c == '\n';
      case 'r' => ok := c == '\r';
      case 't' => ok := c == '\t';
      case 'v' => ok := c as int == 11;
      case 'x' => ok := HexValue(op[2]) * 16 + HexValue(op[3]) == c as int;
      case e => ok := e == c;
    } else if op[0] == '$' {
      ok := false;
    } else if op[0] == '.' {
      ok := true;
    } else if ignoreCase {
      ok := Lower(op[0]) == Lower(c);
    } else {
      ok := op[0] == c;
    }
    r := if ok then 1 else NO_MATCH;
  }

  // What a step of bar leaves to be matched

  /** To match items at s is to match rest at t, j characters on. */
  ghost predicate Continues(items: seq<Item>, s: string, rest: seq<Item>, t: string, j: nat, ignoreCase: bool)
    requires AllValid(items) && AllValid(rest)
  {
    && j <= |s| && t == s[j..]
    && (Found(items, s, ignoreCase) <==> Found(rest, t, ignoreCase))
    && (forall n: nat :: Answered(rest, t, n, ignoreCase) ==> Answered(items, s, j + n, ignoreCase))
  }

  lemma Further(items: seq<Item>, s: string, mid: seq<Item>, t: string, j: nat, rest: seq<Item>, u: string, k: nat,
                ignoreCase: bool)
    requires AllValid(items) && AllValid(mid) && AllValid(rest)
    requires Continues(items, s, mid, t, j, ignoreCase) && Continues(mid, t, rest, u, k, ignoreCase)
    ensures Continues(items, s, rest, u, j + k, ignoreCase)
  {
    forall n: nat | Answered(rest, u, n, ignoreCase) ensures Answered(items, s, j + k + n, ignoreCase) {
      assert Answered(mid, t, k + n, ignoreCase);
    }
  }

  lemma OnceGoesOn(items: seq<Item>, s: string, k: nat, ignoreCase: bool)
    requires AllValid(items) && items != [] && items[0].Item? && items[0].quantity == Once
    requires Take(items[0].op, s, ignoreCase) == Some(k)
    ensures Continues(items, s, items[1..], s[k..], k, ignoreCase)
  {
    hide Take;
    forall n: nat | Answered(items[1..], s[k..], n, ignoreCase) ensures Answered(items, s, k + n, ignoreCase) {
      assert AnsweredBehind(items[1..], s, k + n, k, ignoreCase);
    }
  }

  lemma OptionalGoesOn(items: seq<Item>, s: string, ignoreCase: bool)
    requires AllValid(items) && items != [] && items[0].Item? && items[0].quantity == Optional
    ensures var k := Take(items[0].op, s, ignoreCase).GetOr(0);
            Continues(items, s, items[1..], s[k..], k, ignoreCase)
  {
    hide Take;
    var k := Take(items[0].op, s, ignoreCase).GetOr(0);
    forall n: nat | Answered(items[1..], s[k..], n, ignoreCase) ensures Answered(items, s, k + n, ignoreCase) {
      assert AnsweredBehind(items[1..], s, k + n, k, ignoreCase);
    }
  }

  lemma AnswersLater(r: int, items: seq<Item>, s: string, rest: seq<Item>, t: string, j: nat, ignoreCase: bool)
    requires AllValid(items) && AllValid(rest)
    requires Continues(items, s, rest, t, j, ignoreCase) && Answers(r, rest, t, ignoreCase)
    ensures Answers(if r >= 0 then j + r else r, items, s, ignoreCase)
  {}

  lemma AnswerMatches(r: int, items: seq<Item>, s: string, ignoreCase: bool)
    requires AllValid(items) && Answers(r, items, s, ignoreCase)
    ensures r >= 0 ==> Matches(items, s, r, ignoreCase)
  {
    if r >= 0 {
      AnsweredIsMatch(items, s, r, ignoreCase);
    }
  }

  /** A single op as a pattern. */
  lemma SingleOp(op: string)
    requires op != [] && Plain(op) && OpLen(op) == |op| && !IsQuantifier(op[0])
    ensures Pattern(op) && PatternItems(op) == [Item(op, Once)] && op[0] != '^'
  {
    assert op[OpLen(op)..] == [] && Front(op) == op;
    assert Items(op) == [Item(op, Once)] + Items([]);
  }

  /** What the answer for a single op tells. */
  lemma SingleAnswer(r: int, op: string, s: string, ignoreCase: bool)
    requires Complete(op)
    requires AllValid([Item(op, Once)]) && Answers(r, [Item(op, Once)], s, ignoreCase)
    ensures if r >= 0 then Take(op, s, ignoreCase) == Some(r) else Take(op, s, ignoreCase) == None
  {
    hide Take;
    var items := [Item(op, Once)];
    assert items[1..] == [];
    if Take(op, s, ignoreCase).Some? {
      assert Found([], s[Take(op, s, ignoreCase).value..], ignoreCase);
    }
    if r >= 0 {
      assert AnsweredBehind([], s, r, Take(op, s, ignoreCase).value, ignoreCase);
    }
  }

  /** The items at offset i, where bar stands at an op. */
  ghost function ItemsAt(re: string, i: nat): (items: seq<Item>)
    requires Pattern(re) && i <= |re| && (i > 0 ==> Plain(re[i..]))
    ensures AllValid(items)
  {
    if i == 0 then PatternItems(re) else Items(re[i..])
  }

  /** Bar at offset i: the op there, and what its item is. */
  lemma OpAt(re: string, i: nat)
    requires Pattern(re) && i < |re| && (i > 0 ==> Plain(re[i..]))
    ensures IsQuantifier(re[i]) ==> ItemsAt(re, i) == [Misplaced]
    ensures re[i] == '^' ==> i == 0
    ensures !IsQuantifier(re[i]) ==>
      var n := OpLen(re[i..]);
      && i + n <= |re| && Plain(re[i + n..])
      && var op := re[i..i + n];
      && op != [] && OpLen(op) == n && (op[0] == '\\' ==> GoodEscape(op)) && op[0] == re[i]
      && (op[0] == '^' <==> re[i] == '^') && (op[0] != '^' ==> Plain(op))
      && if i + n < |re| && IsQuantifier(re[i + n]) then
           op[0] != '^' && Plain(Behind(re[i + n..]))
           && ItemsAt(re, i) == [Item(op, QuantityOf(re[i + n..]))] + Items(Behind(re[i + n..]))
         else ItemsAt(re, i) == [Item(op, Once)] + ItemsAt(re, i + n)
  {
    hide Items, Plain, OpLen;
    var rest := re[i..];
    assert re[0..] == re;
    if re[i] == '^' {
      CaretAt(re, i);
    } else {
      PlainFront(rest);
      if !IsQuantifier(re[i]) {
        var n := OpLen(rest);
        assert rest[..n] == re[i..i + n] && rest[n..] == re[i + n..];
      }
    }
  }

  lemma CaretAt(re: string, i: nat)
    requires Pattern(re) && i < |re| && (i > 0 ==> Plain(re[i..])) && re[i] == '^'
    ensures i == 0 && OpLen(re[i..]) == 1 && Plain(re[1..]) && re[..1] == "^" && OpLen("^") == 1
    ensures ItemsAt(re, 0) == [Item("^", Once)] + Items(re[1..])
    ensures |re| > 1 ==> !IsQuantifier(re[1])
  {}

  /** The front of a plain pattern, and its items. */
  lemma PlainFront(re: string)
    requires re != [] && Plain(re)
    ensures var n := OpLen(re);
            && n <= |re| && Plain(re[n..]) && Plain(re[..n]) && OpLen(re[..n]) == n && re[..n][0] == re[0] != '^'
            && (re[0] == '\\' ==> GoodEscape(re[..n]))
            && if IsQuantifier(re[0]) then Items(re) == [Misplaced]
               else if n < |re| && IsQuantifier(re[n]) then
                 Plain(Behind(re[n..])) && Items(re) == [Item(re[..n], QuantityOf(re[n..]))] + Items(Behind(re[n..]))
               else Items(re) == [Item(re[..n], Once)] + Items(re[n..])
  {
    hide GoodEscape;
    var n := OpLen(re);
    var op, tail := Front(re), re[n..];
    assert op[n..] == [] && re[..n] == op;
    if tail != [] && IsQuantifier(tail[0]) {
      PlainBehind(tail);
    }
  }

  // Repetition

  /** rest answered behind k of op, n characters in all. */
  ghost predicate Success(op: string, rest: seq<Item>, t: string, k: nat, n: nat, ignoreCase: bool)
    requires Complete(op) && AllValid(rest)
  {
    FoundAfter(op, rest, t, k, ignoreCase) && AnsweredBehind(rest, t, n, k, ignoreCase)
  }

  /** rest is found behind none of the numbers of op from a + 1 to b. */
  ghost predicate NoneFrom(rest: seq<Item>, t: string, a: nat, b: nat, ignoreCase: bool)
    requires AllValid(rest) && b <= |t|
  {
    forall k | a < k <= b :: !Found(rest, t[k..], ignoreCase)
  }

  /** A success is an answer for the repeated item. */
  lemma SuccessAnswers(op: string, q: Quantity, rest: seq<Item>, t: string, k: nat, n: nat, ignoreCase: bool)
    requires Complete(op) && AllValid(rest) && AllValid([Item(op, q)] + rest)
    requires Success(op, rest, t, k, n, ignoreCase) && n <= |t| && Prefers(op, q, rest, t, k, ignoreCase)
    ensures Answers(n, [Item(op, q)] + rest, t, ignoreCase)
  {
    hide Take, Repeats, NoneAbove, NoneBelow, FallsBack;
    var items := [Item(op, q)] + rest;
    assert items[1..] == rest && items[0] == Item(op, q);
  }

  lemma NothingAnswers(op: string, q: Quantity, rest: seq<Item>, t: string, r: int, ignoreCase: bool)
    requires Complete(op) && AllValid(rest) && AllValid([Item(op, q)] + rest)
    requires q.Any? || q.Many?
    requires r < 0
    requires forall k: nat | (q.Any? || k > 0) :: !FoundAfter(op, rest, t, k, ignoreCase)
    ensures Answers(r, [Item(op, q)] + rest, t, ignoreCase)
  {
    var items := [Item(op, q)] + rest;
    assert items[1..] == rest && items[0] == Item(op, q);
  }

  /** No op is taken more often than until it fails. */
  lemma RepeatsEnd(op: string, t: string, j2: nat, k: nat, ignoreCase: bool)
    requires Complete(op)
    requires j2 <= |t| && Take(op, t[j2..], ignoreCase) != Some(1) && Repeats(op, t, k, ignoreCase)
    ensures k <= j2
  {}

  lemma RepeatsMore(op: string, t: string, j2: nat, ignoreCase: bool)
    requires Complete(op)
    requires Repeats(op, t, j2, ignoreCase) && Take(op, t[j2..], ignoreCase) == Some(1)
    ensures Repeats(op, t, j2 + 1, ignoreCase)
  {}

  lemma SuccessAt(op: string, rest: seq<Item>, t: string, k: nat, r: int, ignoreCase: bool)
    requires Complete(op) && AllValid(rest)
    requires Repeats(op, t, k, ignoreCase) && Answers(r, rest, t[k..], ignoreCase) && r >= 0
    ensures k + r <= |t| && Success(op, rest, t, k, k + r, ignoreCase)
  {
    assert k + r - k == r;
  }

  lemma Fails(op: string, rest: seq<Item>, t: string, j2: nat, q: Quantity, ignoreCase: bool)
    requires Complete(op) && AllValid(rest) && AllValid([Item(op, q)] + rest)
    requires q.Many? || (q.Any? && !Found(rest, t, ignoreCase))
    requires j2 <= |t| && Take(op, t[j2..], ignoreCase) != Some(1) && NoneFrom(rest, t, 0, j2, ignoreCase)
    ensures Answers(NO_MATCH, [Item(op, q)] + rest, t, ignoreCase)
  {
    forall k: nat | q.Any? || k > 0 ensures !FoundAfter(op, rest, t, k, ignoreCase) {
      if Repeats(op, t, k, ignoreCase) {
        RepeatsEnd(op, t, j2, k, ignoreCase);
        assert t[0..] == t;
      }
    }
    NothingAnswers(op, q, rest, t, NO_MATCH, ignoreCase);
  }

  /** Greedy: nothing was found behind any larger number. */
  lemma GreedyPrefers(op: string, rest: seq<Item>, t: string, k: nat, n: nat, j2: nat, ignoreCase: bool)
    requires Complete(op) && AllValid(rest) && j2 <= |t|
    requires Success(op, rest, t, k, n, ignoreCase) && NoneFrom(rest, t, k, j2, ignoreCase)
    requires Take(op, t[j2..], ignoreCase) != Some(1)
    ensures NoneAbove(op, rest, t, k, ignoreCase)
    ensures k > 0 ==> Prefers(op, Many(false), rest, t, k, ignoreCase)
  {
    hide Take, Found, Answered;
    forall h: nat | h > k ensures !FoundAfter(op, rest, t, h, ignoreCase) {
      if Repeats(op, t, h, ignoreCase) {
        RepeatsEnd(op, t, j2, h, ignoreCase);
      }
    }
  }

  lemma WhyFallsBack(op: string, rest: seq<Item>, t: string, ignoreCase: bool) returns (k: nat, n: nat)
    requires Complete(op) && AllValid(rest) && FallsBack(op, rest, t, ignoreCase)
    ensures AllTaken(op, t, k, ignoreCase) && !Found(rest, t[k..], ignoreCase)
    ensures n > 0 && Answered(rest, t, n, ignoreCase)
  {
    k :| AllTaken(op, t, k, ignoreCase) && !Found(rest, t[k..], ignoreCase);
    n :| n > 0 && Answered(rest, t, n, ignoreCase);
  }

  /** A star whose rest was found behind as many as there are, or answers with
      nothing without any, does not fall back. */
  lemma StaysUp(op: string, rest: seq<Item>, t: string, j2: nat, ignoreCase: bool)
    requires Complete(op) && AllValid(rest) && Repeats(op, t, j2, ignoreCase)
    requires Take(op, t[j2..], ignoreCase) != Some(1)
    requires Found(rest, t[j2..], ignoreCase) || !Found(rest, t, ignoreCase) || Answered(rest, t, 0, ignoreCase)
    ensures !FallsBack(op, rest, t, ignoreCase)
  {
    hide Take, Found, Answered, FallsBack;
    if FallsBack(op, rest, t, ignoreCase) {
      var k, n := WhyFallsBack(op, rest, t, ignoreCase);
      AllTakenOnce(op, t, k, j2, ignoreCase);
      AllTakenOnce(op, t, j2, k, ignoreCase);
      AnsweredIsMatch(rest, t, n, ignoreCase);
      OneAnswer(rest, t, n, 0, ignoreCase);
    }
  }

  lemma LazyPrefers(op: string, rest: seq<Item>, t: string, k: nat, n: nat, ignoreCase: bool)
    requires Complete(op) && AllValid(rest) && 0 < k <= |t|
    requires Success(op, rest, t, k, n, ignoreCase) && NoneFrom(rest, t, 0, k - 1, ignoreCase)
    ensures Prefers(op, Many(true), rest, t, k, ignoreCase) && Prefers(op, Any(true), rest, t, k, ignoreCase)
  {
    hide Take, Found, Answered;
  }

  // The matcher

  /** The op at offset i of re, without a quantifier, at offset j of s. */
  method One(op: string, s: string, j: nat, ignoreCase: bool) returns (n: int)
    requires Complete(op) && j <= |s| && (op[0] == '^' ==> j == 0)
    ensures n == match Take(op, s[j..], ignoreCase) case None => NO_MATCH case Some(k) => k
  {
    if op[0] == '^' {
      n := if j != 0 then NO_MATCH else 0;
    } else if op[0] == '$' {
      n := if j != |s| then NO_MATCH else 0;
    } else if j >= |s| {
      n := NO_MATCH;
    } else {
      n := MatchOp(op, s[j], ignoreCase);
    }
  }

  method Bar(re: string, s: string, ignoreCase: bool) returns (r: int)
    requires Pattern(re)
    ensures Answers(r, PatternItems(re), s, ignoreCase)
    ensures r >= 0 ==> Matches(PatternItems(re), s, r, ignoreCase)
    decreases |re|, 0
  {
    hide Answers, Continues, PatternItems, ItemsAt, Take, Behind, Items, Plain, OpLen, Pattern, GoodEscape, Matches,
      Marked;
    var i, j := 0, 0;
    StartsWhole(re, s, ignoreCase);
    while i < |re| && j <= |s|
      invariant 0 <= i <= |re| && 0 <= j <= |s| && (i > 0 ==> Plain(re[i..])) && (i == 0 ==> j == 0)
      invariant Continues(PatternItems(re), s, ItemsAt(re, i), s[j..], j, ignoreCase)
    {
      var step := OpLen(re[i..]);
      OpAt(re, i);
      if IsQuantifier(re[i]) {
        MisplacedAnswers(UNEXPECTED_QUANTIFIER, s[j..], ignoreCase);
        AnswersLater(UNEXPECTED_QUANTIFIER, PatternItems(re), s, [Misplaced], s[j..], j, ignoreCase);
        return UNEXPECTED_QUANTIFIER;
      }
      var op := re[i..i + step];
      if i + step < |re| && IsQuantifier(re[i + step]) {
        if re[i + step] == '?' {
          SingleOp(op);
          var result := Bar(op, s[j..], ignoreCase);
          SingleAnswer(result, op, s[j..], ignoreCase);
          var k := if result > 0 then result else 0;
          BehindOptional(re, i + step);
          OptionalStep(PatternItems(re), s, j, op, ItemsAt(re, i + step + 1), k, ignoreCase);
          j := j + k;
          i := i + step + 1;
        } else {
          var lazy := i + step + 1 < |re| && re[i + step + 1] == '?';
          var ni := if lazy then i + step + 2 else i + step + 1;
          BehindStar(re, i + step);
          var n := Repeat(op, re[ni..], re[i + step] == '+', lazy, s[j..], ignoreCase);
          AnswersLater(n, PatternItems(re), s, ItemsAt(re, i), s[j..], j, ignoreCase);
          r := if n >= 0 then j + n else n;
          AnswerMatches(r, PatternItems(re), s, ignoreCase);
          return;
        }
      } else {
        var n := One(op, s, j, ignoreCase);
        if n < 0 {
          OnceFails(ItemsAt(re, i), s[j..], n, ignoreCase);
          AnswersLater(n, PatternItems(re), s, ItemsAt(re, i), s[j..], j, ignoreCase);
          return n;
        }
        OnceStep(PatternItems(re), s, j, op, ItemsAt(re, i + step), n, ignoreCase);
        j := j + n;
        i := i + step;
      }
    }
    EndAnswers(re, s[j..], ignoreCase);
    AnswersLater(0, PatternItems(re), s, ItemsAt(re, i), s[j..], j, ignoreCase);
    AnswerMatches(j, PatternItems(re), s, ignoreCase);
    r := j;
  }

  lemma OnceStep(whole: seq<Item>, s: string, j: nat, op: string, tail: seq<Item>, k: nat, ignoreCase: bool)
    requires AllValid(whole) && AllValid(tail) && AllValid([Item(op, Once)] + tail) && j <= |s|
    requires Complete(op) && Take(op, s[j..], ignoreCase) == Some(k)
    requires Continues(whole, s, [Item(op, Once)] + tail, s[j..], j, ignoreCase)
    ensures j + k <= |s| && Continues(whole, s, tail, s[j + k..], j + k, ignoreCase)
  {
    hide Continues, Take, AllValid, GoodEscape;
    var items := [Item(op, Once)] + tail;
    OnceGoesOn(items, s[j..], k, ignoreCase);
    assert items[1..] == tail && s[j..][k..] == s[j + k..];
    Further(whole, s, items, s[j..], j, tail, s[j + k..], k, ignoreCase);
  }

  lemma OptionalStep(whole: seq<Item>, s: string, j: nat, op: string, tail: seq<Item>, k: nat, ignoreCase: bool)
    requires AllValid(whole) && AllValid(tail) && AllValid([Item(op, Optional)] + tail) && j <= |s|
    requires Complete(op) && k == Take(op, s[j..], ignoreCase).GetOr(0)
    requires Continues(whole, s, [Item(op, Optional)] + tail, s[j..], j, ignoreCase)
    ensures j + k <= |s| && Continues(whole, s, tail, s[j + k..], j + k, ignoreCase)
  {
    hide Continues, Take, AllValid, GoodEscape;
    var items := [Item(op, Optional)] + tail;
    OptionalGoesOn(items, s[j..], ignoreCase);
    assert items[1..] == tail && s[j..][k..] == s[j + k..];
    Further(whole, s, items, s[j..], j, tail, s[j + k..], k, ignoreCase);
  }

  /** The loop has stopped at its first success, before op failed. */
  predicate Early(lazy: bool, hit: Option<nat>)
  {
    lazy && hit.Some? && hit.value > 0
  }

  /** What the loop over op, stopped after j2 of it, says of the numbers that it
      tried; hit is the one of the last success. */
  ghost predicate Tried(op: string, rest: seq<Item>, t: string, lazy: bool, nj: nat, j2: nat, hit: Option<nat>,
                        ignoreCase: bool)
    requires Complete(op) && AllValid(rest)
  {
    && j2 <= |t| && Repeats(op, t, j2, ignoreCase)
    && match hit
       case None => nj == 0 && NoneFrom(rest, t, 0, j2, ignoreCase)
       case Some(k) =>
         && k <= j2 && nj <= |t| && Success(op, rest, t, k, nj, ignoreCase)
         && if lazy && k > 0 then NoneFrom(rest, t, 0, k - 1, ignoreCase) else NoneFrom(rest, t, k, j2, ignoreCase)
  }

  /** The loop of a star or plus over op, with rest behind it: the last
      answers n1 and n2, and what nj came to. */
  method RepeatLoop(op: string, rest: string, plus: bool, lazy: bool, t: string, ignoreCase: bool)
    returns (n1: int, n2: int, nj: nat, ghost j2: nat, ghost hit: Option<nat>)
    requires op != [] && Plain(op) && OpLen(op) == |op| && !IsQuantifier(op[0]) && Plain(rest)
    requires op[0] == '\\' ==> GoodEscape(op)
    ensures Tried(op, Items(rest), t, lazy, nj, j2, hit, ignoreCase)
    ensures nj > 0 ==> hit.Some? && (plus ==> hit.value > 0)
    ensures nj == 0 && hit.Some? ==> hit == Some(0)
    ensures hit == Some(0) ==> j2 == 0
    ensures if Early(lazy, hit) then n1 > 0 else Take(op, t[j2..], ignoreCase) != Some(1) && (n1 >= 0 ==> j2 == 0)
    ensures !plus && !Early(lazy, hit) ==>
              if rest == [] then n2 < 0 && hit == Some(j2)
              else (n2 >= 0 <==> Found(Items(rest), t[j2..], ignoreCase)) && (n2 >= 0 ==> hit == Some(j2))
    decreases |op| + |rest|, 1
  {
    hide Answers, Take, Items, Plain, OpLen, Pattern, PatternItems, Success, Repeats, FoundAfter, NoneFrom, Tried,
      Found, Answered, GoodEscape;
    ghost var items := Items(rest);
    SingleOp(op);
    PlainIsPattern(rest);
    var j := 0;
    nj, n1, n2, hit := 0, 0, -1, None;
    TriedNothing(op, items, t, lazy, ignoreCase);
    while true
      invariant j <= |t| && Tried(op, items, t, lazy, nj, j, hit, ignoreCase)
      invariant if hit.Some? then !lazy && hit.value > 0 && nj > 0 else nj == 0
      invariant rest == [] ==> n2 == -1
      invariant j > 0 ==> exists u: string :: Take(op, u, ignoreCase) == Some(1)
      decreases |t| - j
    {
      n1 := Bar(op, t[j..], ignoreCase);
      SingleAnswer(n1, op, t[j..], ignoreCase);
      ghost var before := j;
      if n1 > 0 {
        j := j + n1;
      } else {
        AnchorsEnd(op, t, j, n1, ignoreCase);
        NotHere(op, items, t, lazy, nj, j, hit, ignoreCase);
      }
      if plus && n1 < 0 {
        break;
      }
      ghost var r, tried := 0, nj;
      if rest == [] {
        nj := j;
        EmptyAnswers(t[j..], ignoreCase);
      } else {
        n2 := Bar(rest, t[j..], ignoreCase);
        r := n2;
        if n2 >= 0 {
          nj := j + n2;
        }
      }
      AnswersFound(r, items, t[j..], ignoreCase);
      if r >= 0 {
        TriedFound(op, items, t, lazy, tried, before, hit, j, r, ignoreCase);
        hit := Some(j);
      } else if n1 > 0 {
        TriedMore(op, items, t, lazy, nj, before, hit, ignoreCase);
      }
      if nj > 0 && lazy {
        break;
      }
      if n1 <= 0 {
        break;
      }
    }
    j2 := j;
  }

  /** A star that answers without op: nothing was found behind any, or it falls
      back. */
  lemma StartsOver(op: string, rest: seq<Item>, t: string, lazy: bool, nj: nat, n2: int, j2: nat, hit: Option<nat>,
                   ignoreCase: bool)
    requires Complete(op) && AllValid(rest)
    requires Tried(op, rest, t, lazy, nj, j2, hit, ignoreCase) && !Early(lazy, hit)
    requires Take(op, t[j2..], ignoreCase) != Some(1) && n2 >= 0 && Answers(n2, rest, t, ignoreCase)
    requires hit.Some? && hit.value > 0 ==> n2 > 0 && !Found(rest, t[j2..], ignoreCase)
    ensures n2 <= |t| && Success(op, rest, t, 0, n2, ignoreCase) && Prefers(op, Any(lazy), rest, t, 0, ignoreCase)
  {
    hide Take, Found, Answered;
    assert t[0..] == t;
    SuccessAt(op, rest, t, 0, n2, ignoreCase);
    if hit.Some? && hit.value > 0 {
      assert AllTaken(op, t, j2, ignoreCase);
    } else {
      GreedyPrefers(op, rest, t, 0, n2, j2, ignoreCase);
    }
  }

  /** A repetition that answers with the last success of its loop. */
  lemma LoopDecides(op: string, rest: seq<Item>, t: string, plus: bool, lazy: bool, nj: nat, j2: nat, k: nat,
                    ignoreCase: bool)
    requires Complete(op) && AllValid(rest) && Tried(op, rest, t, lazy, nj, j2, Some(k), ignoreCase)
    requires plus ==> k > 0
    requires !Early(lazy, Some(k)) ==> Take(op, t[j2..], ignoreCase) != Some(1)
    requires !plus && !Early(lazy, Some(k)) ==>
               Found(rest, t[j2..], ignoreCase) || !Found(rest, t, ignoreCase) || Answered(rest, t, 0, ignoreCase)
    ensures Prefers(op, if plus then Many(lazy) else Any(lazy), rest, t, k, ignoreCase)
  {
    hide Take, Found, Answered, FallsBack;
    if lazy && k > 0 {
      LazyPrefers(op, rest, t, k, nj, ignoreCase);
    } else {
      GreedyPrefers(op, rest, t, k, nj, j2, ignoreCase);
      if !plus {
        StaysUp(op, rest, t, j2, ignoreCase);
      }
    }
  }

  method Repeat(op: string, rest: string, plus: bool, lazy: bool, t: string, ignoreCase: bool) returns (r: int)
    requires op != [] && Plain(op) && OpLen(op) == |op| && !IsQuantifier(op[0]) && Plain(rest)
    requires op[0] == '\\' ==> GoodEscape(op)
    requires AllValid([Item(op, if plus then Many(lazy) else Any(lazy))] + Items(rest))
    ensures Answers(r, [Item(op, if plus then Many(lazy) else Any(lazy))] + Items(rest), t, ignoreCase)
    decreases |op| + |rest|, 2
  {
    hide Answers, Take, Items, Plain, OpLen, Pattern, PatternItems, Success, Repeats, FoundAfter, NoneFrom, Prefers,
      Answered;
    ghost var items, q := Items(rest), if plus then Many(lazy) else Any(lazy);
    PlainIsPattern(rest);
    assert t[0..] == t;
    var n1, n2, nj;
    ghost var j2, hit;
    n1, n2, nj, j2, hit := RepeatLoop(op, rest, plus, lazy, t, ignoreCase);
    if rest == [] {
      EmptyAnswers(t[j2..], ignoreCase);
      AnswersFound(0, items, t[j2..], ignoreCase);
    }
    ghost var k, tried := hit.GetOr(0), nj;
    ghost var over := false;
    if n1 < 0 && n2 < 0 && !plus {
      n2 := Bar(rest, t, ignoreCase);
      AnswersFound(n2, items, t, ignoreCase);
      over := n2 > 0 || (n2 == 0 && nj == 0);
      if rest == [] {
        EmptyIsNothing(n2, t, ignoreCase);
      }
      if over {
        StartsOver(op, items, t, lazy, tried, n2, j2, hit, ignoreCase);
        k := 0;
      }
      if n2 > 0 {
        nj := n2;
      }
    }
    if plus && nj == 0 {
      Fails(op, items, t, j2, q, ignoreCase);
      return NO_MATCH;
    }
    if nj == 0 && rest != [] && n2 < 0 {
      Fails(op, items, t, j2, q, ignoreCase);
      return NO_MATCH;
    }
    if !over {
      LoopDecides(op, items, t, plus, lazy, nj, j2, k, ignoreCase);
    }
    SuccessAnswers(op, q, items, t, k, nj, ignoreCase);
    r := nj;
  }

  // Small facts for the loops

  lemma TriedNothing(op: string, items: seq<Item>, t: string, lazy: bool, ignoreCase: bool)
    requires Complete(op) && AllValid(items)
    ensures Tried(op, items, t, lazy, 0, 0, None, ignoreCase)
  {}

  lemma NotHere(op: string, items: seq<Item>, t: string, lazy: bool, nj: nat, j: nat, hit: Option<nat>,
                ignoreCase: bool)
    requires Complete(op) && AllValid(items) && Tried(op, items, t, lazy, nj, j, hit, ignoreCase)
    ensures j > 0 && hit.None? ==> !Found(items, t[j..], ignoreCase)
  {}

  /** One more of op, and nothing behind it. */
  lemma TriedMore(op: string, items: seq<Item>, t: string, lazy: bool, nj: nat, j: nat, hit: Option<nat>,
                  ignoreCase: bool)
    requires Complete(op) && AllValid(items) && Tried(op, items, t, lazy, nj, j, hit, ignoreCase) && !Early(lazy, hit)
    requires Take(op, t[j..], ignoreCase) == Some(1) && !Found(items, t[j + 1..], ignoreCase)
    ensures Tried(op, items, t, lazy, nj, j + 1, hit, ignoreCase)
  {
    hide Found, Success, Take, Repeats;
    RepeatsMore(op, t, j, ignoreCase);
  }

  /** The rest answers behind j of op, as many as before or one more. */
  lemma TriedFound(op: string, items: seq<Item>, t: string, lazy: bool, nj: nat, before: nat, hit: Option<nat>,
                   j: nat, r: int, ignoreCase: bool)
    requires Complete(op) && AllValid(items)
    requires Tried(op, items, t, lazy, nj, before, hit, ignoreCase) && (lazy ==> hit.None?)
    requires j == before || (j == before + 1 && Take(op, t[before..], ignoreCase) == Some(1))
    requires j <= |t| && r >= 0 && Answers(r, items, t[j..], ignoreCase)
    ensures Tried(op, items, t, lazy, j + r, j, Some(j), ignoreCase)
  {
    hide Found, Success, Take, Repeats, Answers;
    if j > before {
      RepeatsMore(op, t, before, ignoreCase);
    }
    SuccessAt(op, items, t, j, r, ignoreCase);
  }

  /** An anchor holds at the end only, and takes nothing anywhere. */
  lemma AnchorsEnd(op: string, t: string, j: nat, n1: int, ignoreCase: bool)
    requires Complete(op) && op[0] != '^' && j <= |t|
    ensures Take(op, t[j..], ignoreCase) == Some(0) ==>
              j == |t| && forall u: string :: Take(op, u, ignoreCase) != Some(1)
  {}

  lemma EmptyAnswers(t: string, ignoreCase: bool)
    ensures Items("") == [] && Answers(0, [], t, ignoreCase)
  {}

  lemma EmptyIsNothing(r: int, t: string, ignoreCase: bool)
    requires Answers(r, Items(""), t, ignoreCase)
    ensures r == 0
  {
    assert Items("") == [];
  }

  lemma AnswersFound(r: int, items: seq<Item>, t: string, ignoreCase: bool)
    requires AllValid(items) && Answers(r, items, t, ignoreCase)
    ensures r <= |t| && (r >= 0 <==> Found(items, t, ignoreCase))
    ensures r >= 0 ==> Answered(items, t, r, ignoreCase)
  {}

  lemma PlainIsPattern(re: string)
    requires Plain(re)
    ensures Pattern(re) && PatternItems(re) == Items(re)
  {}

  lemma StartsWhole(re: string, s: string, ignoreCase: bool)
    requires Pattern(re)
    ensures Continues(PatternItems(re), s, ItemsAt(re, 0), s[0..], 0, ignoreCase)
  {
    assert s[0..] == s;
  }

  lemma MisplacedAnswers(r: int, t: string, ignoreCase: bool)
    requires r < 0
    ensures AllValid([Misplaced]) && Answers(r, [Misplaced], t, ignoreCase)
  {}

  lemma BehindOptional(re: string, x: nat)
    requires x < |re| && re[x] == '?' && Pattern(re) && Plain(Behind(re[x..]))
    ensures Plain(re[x + 1..]) && Items(Behind(re[x..])) == ItemsAt(re, x + 1)
  {
    assert re[x..][1..] == re[x + 1..];
  }

  lemma BehindStar(re: string, x: nat)
    requires x < |re| && (re[x] == '*' || re[x] == '+')
    ensures Behind(re[x..]) == re[if x + 1 < |re| && re[x + 1] == '?' then x + 2 else x + 1..]
    ensures var lazy := x + 1 < |re| && re[x + 1] == '?';
            QuantityOf(re[x..]) == if re[x] == '+' then Many(lazy) else Any(lazy)
  {
    assert |re[x..]| > 1 ==> re[x..][1] == re[x + 1];
  }

  lemma OnceFails(items: seq<Item>, t: string, n: int, ignoreCase: bool)
    requires AllValid(items) && items != [] && items[0].Item? && items[0].quantity == Once
    requires Take(items[0].op, t, ignoreCase) == None && n < 0
    ensures Answers(n, items, t, ignoreCase)
  {}

  lemma EndAnswers(re: string, t: string, ignoreCase: bool)
    requires Pattern(re)
    ensures Plain(re[|re|..]) && Answers(0, ItemsAt(re, |re|), t, ignoreCase)
  {}
}
