/** The language of a regular expression without brackets and sets, and what
    the matcher finds of it. */
module SlreSpec {
  import opened Wrappers

  const METACHARACTERS: string := "^$().[]*+?|\\Ssdbfnrtv"

  predicate IsQuantifier(c: char)
  {
    c == '*' || c == '+' || c == '?'
  }

  predicate IsDigit(c: char) { '0' <= c <= '9' }

  predicate IsHexDigit(c: char) { IsDigit(c) || 'a' <= Lower(c) <= 'f' }

  predicate IsSpace(c: char) { c == ' ' || 9 <= c as int <= 13 }

  function Lower(c: char): char
  {
    if 'A' <= c <= 'Z' then (c as int + 32) as char else c
  }

  const DIGITS: string := "0123456789"

  const HEX_LETTERS: string := "abcdef"

  const CAPITALS: string := "ABCDEFGHIJKLMNOPQRSTUVWXYZ"

  /** The classes, character by character. */
  lemma SpacesAre(c: char)
    ensures IsSpace(c) <==> c in [' ', '\t', '\n', 11 as char, 12 as char, '\r']
  {}

  lemma CapitalsAre(c: char)
    ensures Lower(c) == if c in CAPITALS then (c as int + 0x20) as char else c
  {
    if 'A' <= c <= 'Z' {
      assert CAPITALS[c as int - 0x41] == c;
    }
  }

  lemma DigitsAre(c: char)
    ensures IsDigit(c) <==> c in DIGITS
    ensures IsDigit(c) ==> 0 <= HexValue(c) < 10 && DIGITS[HexValue(c)] == c
  {
    if IsDigit(c) {
      assert DIGITS[c as int - 0x30] == c;
    }
  }

  lemma HexLettersAre(c: char)
    ensures IsHexDigit(c) && !IsDigit(c) <==> Lower(c) in HEX_LETTERS
    ensures IsHexDigit(c) && !IsDigit(c) ==> 10 <= HexValue(c) < 16 && HEX_LETTERS[HexValue(c) - 10] == Lower(c)
  {
    var x := Lower(c);
    if 'a' <= x <= 'f' {
      assert HEX_LETTERS[x as int - 0x61] == x;
    }
  }

  function HexValue(c: char): int
  {
    if IsDigit(c) then c as int - '0' as int else Lower(c) as int - 'a' as int + 10
  }

  /** Length of the op at the front; reading past the end finds no x. */
  function OpLen(re: string): (n: nat)
    requires re != []
    ensures n > 0
  {
    if re[0] == '\\' && |re| > 1 && re[1] == 'x' then 4 else if re[0] == '\\' then 2 else 1
  }

  predicate GoodEscape(re: string)
    requires re != [] && re[0] == '\\'
  {
    |re| > 1 &&
    if re[1] == 'x' then |re| > 3 && IsHexDigit(re[2]) && IsHexDigit(re[3]) else re[1] in METACHARACTERS
  }

  /** An op by itself. */
  predicate Complete(op: string)
  {
    op != [] && (op[0] == '\\' ==> GoodEscape(op))
  }

  /** Complete ops, and none that opens or closes a bracket or a set, ends an
      alternative or anchors the start. */
  predicate Plain(re: string)
  {
    re == [] ||
    (re[0] !in "[()|^" && (re[0] == '\\' ==> GoodEscape(re)) && Plain(re[OpLen(re)..]))
  }

  /** A pattern may start with an anchor. */
  predicate Pattern(re: string)
  {
    Plain(if re != [] && re[0] == '^' then re[1..] else re)
    && (|re| > 1 && re[0] == '^' ==> !IsQuantifier(re[1]))
  }

  /** Whether a single op accepts a character. */
  predicate Accepts(op: string, c: char, ignoreCase: bool)
    requires Complete(op)
  {
    if op[0] == '\\' then
      match op[1]
      case 'S' => !IsSpace(c)
      case 's' => IsSpace(c)
      case 'd' => IsDigit(c)
      case 'b' => c as int == 8
      case 'f' => c as int == 12
      case 'n' => c == '\n'
      case 'r' => c == '\r'
      case 't' => c == '\t'
      case 'v' => c as int == 11
      case 'x' => HexValue(op[2]) * 16 + HexValue(op[3]) == c as int
      case e => e == c
    else if op[0] == '.' then true
    else if ignoreCase then Lower(op[0]) == Lower(c)
    else op[0] == c
  }

  /** How much a single op consumes at the front of s, if it matches. */
  function Take(op: string, s: string, ignoreCase: bool): (r: Option<nat>)
    requires Complete(op)
    ensures r.Some? ==> r.value <= 1 && r.value <= |s|
  {
    if op[0] == '^' then Some(0)
    else if op[0] == '$' then (if s == [] then Some(0) else None)
    else if s != [] && Accepts(op, s[0], ignoreCase) then Some(1)
    else None
  }

  /** A star and a plus may be marked lazy. */
  datatype Quantity = Once | Optional | Any(lazy: bool) | Many(lazy: bool)

  /** Misplaced is a quantifier with nothing to quantify. */
  datatype Item = Item(op: string, quantity: Quantity) | Misplaced
  {
    predicate Valid()
    {
      Item? ==> Complete(op)
    }
  }

  predicate AllValid(items: seq<Item>)
  {
    items == [] || (items[0].Valid() && AllValid(items[1..]))
  }

  /** The op at the front. */
  function Front(re: string): (op: string)
    requires re != [] && Plain(re)
    ensures op != [] && |op| == OpLen(re) <= |re| && (op[0] == '\\' ==> GoodEscape(op))
  {
    re[..OpLen(re)]
  }

  /** The mark of a lazy star or plus. */
  predicate Marked(re: string)
    requires re != [] && IsQuantifier(re[0])
  {
    re[0] != '?' && |re| > 1 && re[1] == '?'
  }

  /** What follows the quantifier at the front and its mark. */
  function Behind(re: string): (rest: string)
    requires re != [] && IsQuantifier(re[0])
    ensures |rest| < |re|
  {
    if Marked(re) then re[2..] else re[1..]
  }

  /** The quantifier at the front. */
  function QuantityOf(re: string): Quantity
    requires re != [] && IsQuantifier(re[0])
  {
    if re[0] == '?' then Optional else if re[0] == '*' then Any(Marked(re)) else Many(Marked(re))
  }

  lemma PlainBehind(re: string)
    requires re != [] && IsQuantifier(re[0]) && Plain(re)
    ensures Plain(Behind(re))
  {}

  /** The ops of a plain pattern with their quantifiers. */
  function Items(re: string): (items: seq<Item>)
    requires Plain(re)
    ensures AllValid(items)
    decreases |re|
  {
    if re == [] then [] else
    if IsQuantifier(re[0]) then [Misplaced] else
    var tail := re[OpLen(re)..];
    if tail != [] && IsQuantifier(tail[0]) then
      PlainBehind(tail);
      [Item(Front(re), QuantityOf(tail))] + Items(Behind(tail))
    else [Item(Front(re), Once)] + Items(tail)
  }

  function PatternItems(re: string): (items: seq<Item>)
    requires Pattern(re)
    ensures AllValid(items)
  {
    if re != [] && re[0] == '^' then [Item("^", Once)] + Items(re[1..]) else Items(re)
  }

  /** k ops in a row, each consuming a character. */
  predicate Repeats(op: string, s: string, k: nat, ignoreCase: bool)
    requires Complete(op)
  {
    k <= |s| && forall i | 0 <= i < k :: Take(op, s[i..], ignoreCase) == Some(1)
  }

  /** The items match the first n characters of s, all of s being the rest of
      the subject. */
  ghost predicate Matches(items: seq<Item>, s: string, n: nat, ignoreCase: bool)
    requires AllValid(items)
    decreases |items|, 0
  {
    if items == [] then n == 0 else
    match items[0]
    case Misplaced => false
    case Item(op, q) =>
      var tail := items[1..];
      (match q
       case Once => OnceThen(op, tail, s, n, ignoreCase)
       case Optional => Matches(tail, s, n, ignoreCase) || OnceThen(op, tail, s, n, ignoreCase)
       case Any(_) => exists k: nat :: RepeatThen(op, tail, s, n, k, ignoreCase)
       case Many(_) =>
         (exists k: nat :: k > 0 && RepeatThen(op, tail, s, n, k, ignoreCase))
         || (Take(op, s, ignoreCase) == Some(0) && Matches(tail, s, n, ignoreCase)))
  }

  ghost predicate OnceThen(op: string, tail: seq<Item>, s: string, n: nat, ignoreCase: bool)
    requires Complete(op) && AllValid(tail)
    decreases |tail|, 1
  {
    match Take(op, s, ignoreCase)
    case None => false
    case Some(k) => k <= n && Matches(tail, s[k..], n - k, ignoreCase)
  }

  ghost predicate RepeatThen(op: string, tail: seq<Item>, s: string, n: nat, k: nat, ignoreCase: bool)
    requires Complete(op) && AllValid(tail)
    decreases |tail|, 1
  {
    Repeats(op, s, k, ignoreCase) && k <= n && Matches(tail, s[k..], n - k, ignoreCase)
  }

  /** Whether the matcher finds a match at the front of s. It commits to an
      optional op that it can take, and it repeats characters only. */
  ghost predicate Found(items: seq<Item>, s: string, ignoreCase: bool)
    requires AllValid(items)
    decreases |items|, 0
  {
    if items == [] then true else
    match items[0]
    case Misplaced => false
    case Item(op, q) =>
      var tail := items[1..];
      (match q
       case Once => Take(op, s, ignoreCase).Some? && Found(tail, s[Take(op, s, ignoreCase).value..], ignoreCase)
       case Optional => Found(tail, s[Take(op, s, ignoreCase).GetOr(0)..], ignoreCase)
       case Any(_) => exists k: nat :: FoundAfter(op, tail, s, k, ignoreCase)
       case Many(_) => exists k: nat :: k > 0 && FoundAfter(op, tail, s, k, ignoreCase))
  }

  ghost predicate FoundAfter(op: string, tail: seq<Item>, s: string, k: nat, ignoreCase: bool)
    requires Complete(op) && AllValid(tail)
    decreases |tail|, 1
  {
    Repeats(op, s, k, ignoreCase) && Found(tail, s[k..], ignoreCase)
  }

  // ----- which of the matches is the answer -----

  /** What follows is not found behind more than k of op. */
  ghost predicate NoneAbove(op: string, tail: seq<Item>, s: string, k: nat, ignoreCase: bool)
    requires Complete(op) && AllValid(tail)
  {
    forall h: nat | h > k :: !FoundAfter(op, tail, s, h, ignoreCase)
  }

  /** Nor behind fewer, but at least one. */
  ghost predicate NoneBelow(op: string, tail: seq<Item>, s: string, k: nat, ignoreCase: bool)
    requires Complete(op) && AllValid(tail)
  {
    forall h: nat | 0 < h < k :: !FoundAfter(op, tail, s, h, ignoreCase)
  }

  /** The matcher answers with n characters. Of a repetition, greedy is the
      greatest number behind which the rest is found, lazy is the least but
      prefers one to none; a greedy star that falls back takes none. */
  ghost predicate Answered(items: seq<Item>, s: string, n: nat, ignoreCase: bool)
    requires AllValid(items)
    decreases |items|, 0
  {
    if items == [] then n == 0 else
    match items[0]
    case Misplaced => false
    case Item(op, q) =>
      var tail := items[1..];
      (match q
       case Once =>
         && Take(op, s, ignoreCase).Some?
         && AnsweredBehind(tail, s, n, Take(op, s, ignoreCase).value, ignoreCase)
       case Optional => AnsweredBehind(tail, s, n, Take(op, s, ignoreCase).GetOr(0), ignoreCase)
       case _ => exists k: nat :: Prefers(op, q, tail, s, k, ignoreCase) && AnsweredBehind(tail, s, n, k, ignoreCase))
  }

  ghost predicate AnsweredBehind(tail: seq<Item>, s: string, n: nat, k: nat, ignoreCase: bool)
    requires AllValid(tail)
    decreases |tail|, 1
  {
    k <= n && k <= |s| && Answered(tail, s[k..], n - k, ignoreCase)
  }

  /** The rest is found behind k of op, and that number is the one to take. */
  ghost predicate Prefers(op: string, q: Quantity, tail: seq<Item>, s: string, k: nat, ignoreCase: bool)
    requires Complete(op) && AllValid(tail)
    decreases |tail|, 2
  {
    && FoundAfter(op, tail, s, k, ignoreCase)
    && match q
       case Many(lazy) =>
         k > 0 && if lazy then NoneBelow(op, tail, s, k, ignoreCase) else NoneAbove(op, tail, s, k, ignoreCase)
       case Any(lazy) =>
         if lazy then
           if k > 0 then NoneBelow(op, tail, s, k, ignoreCase) else NoneAbove(op, tail, s, 0, ignoreCase)
         else
           if FallsBack(op, tail, s, ignoreCase) then k == 0 else NoneAbove(op, tail, s, k, ignoreCase)
       case _ => false
  }

  /** A greedy star tries once more without op, if the rest was not found behind
      as many as there are; and it forgets what it found in between, if the rest
      then takes any characters. */
  ghost predicate FallsBack(op: string, tail: seq<Item>, s: string, ignoreCase: bool)
    requires Complete(op) && AllValid(tail)
    decreases |tail|, 1
  {
    && (exists k: nat :: AllTaken(op, s, k, ignoreCase) && !Found(tail, s[k..], ignoreCase))
    && (exists n: nat :: n > 0 && Answered(tail, s, n, ignoreCase))
  }

  /** k of op, and then no more. */
  predicate AllTaken(op: string, s: string, k: nat, ignoreCase: bool)
    requires Complete(op)
  {
    Repeats(op, s, k, ignoreCase) && Take(op, s[k..], ignoreCase) != Some(1)
  }

  predicate Anchor(op: string)
  {
    op != [] && (op[0] == '$' || op[0] == '^')
  }

  /** No character is taken by both. */
  ghost predicate Apart(op: string, other: string, ignoreCase: bool)
    requires Complete(op) && Complete(other)
  {
    forall c: char :: !(Accepts(op, c, ignoreCase) && Accepts(other, c, ignoreCase))
  }

  /** What follows does not match in front of a character that op takes, unless
      it takes no characters at all. */
  ghost predicate Clear(op: string, tail: seq<Item>, ignoreCase: bool)
    requires Complete(op) && AllValid(tail)
  {
    tail == [] ||
    match tail[0]
    case Misplaced => true
    case Item(next, q) =>
      if Anchor(next) then (next[0] == '$' && q == Once) || Clear(op, tail[1..], ignoreCase)
      else Apart(op, next, ignoreCase) && (q == Once || q.Many? || Clear(op, tail[1..], ignoreCase))
  }

  /** No plus after an anchor; and every optional op is an anchor, or what
      follows it is clear of it. */
  ghost predicate Exhaustive(items: seq<Item>, ignoreCase: bool)
    requires AllValid(items)
  {
    items == [] ||
    (Exhaustive(items[1..], ignoreCase) &&
     match items[0]
     case Misplaced => true
     case Item(op, q) =>
       (q.Many? ==> !Anchor(op)) && (q == Optional ==> Anchor(op) || Clear(op, items[1..], ignoreCase)))
  }

  ghost predicate HasMatch(items: seq<Item>, s: string, ignoreCase: bool)
    requires AllValid(items)
  {
    exists n: nat :: Matches(items, s, n, ignoreCase)
  }

  /** What is found is a match. */
  lemma {:induction false} FoundIsMatch(items: seq<Item>, s: string, ignoreCase: bool)
    requires AllValid(items) && Found(items, s, ignoreCase)
    ensures HasMatch(items, s, ignoreCase)
    decreases |items|
  {
    hide Accepts, GoodEscape;
    if items == [] {
      assert Matches(items, s, 0, ignoreCase);
      return;
    }
    var op, q, tail := items[0].op, items[0].quantity, items[1..];
    var k: nat;
    match q {
      case Once => k := Take(op, s, ignoreCase).value;
      case Optional => k := Take(op, s, ignoreCase).GetOr(0);
      case Any(_) => k :| FoundAfter(op, tail, s, k, ignoreCase);
      case Many(_) => k :| k > 0 && FoundAfter(op, tail, s, k, ignoreCase);
    }
    FoundIsMatch(tail, s[k..], ignoreCase);
    var n: nat :| Matches(tail, s[k..], n, ignoreCase);
    assert n + k - k == n && s[0..] == s;
    if q.Any? || q.Many? {
      assert RepeatThen(op, tail, s, n + k, k, ignoreCase);
    } else if Take(op, s, ignoreCase).Some? {
      assert OnceThen(op, tail, s, n + k, ignoreCase);
    }
    assert Matches(items, s, n + k, ignoreCase);
  }

  // ----- the answer is one of the matches, and the only one -----

  lemma {:induction false} AnsweredIsMatch(items: seq<Item>, s: string, n: nat, ignoreCase: bool)
    requires AllValid(items) && Answered(items, s, n, ignoreCase)
    ensures n <= |s| && Found(items, s, ignoreCase) && Matches(items, s, n, ignoreCase)
    decreases |items|
  {
    hide Accepts, GoodEscape, NoneAbove, NoneBelow, FallsBack;
    if items != [] {
      var op, q, tail := items[0].op, items[0].quantity, items[1..];
      assert s[0..] == s;
      var k: nat;
      match q {
        case Once => k := Take(op, s, ignoreCase).value;
        case Optional => k := Take(op, s, ignoreCase).GetOr(0);
        case _ => k :| Prefers(op, q, tail, s, k, ignoreCase) && AnsweredBehind(tail, s, n, k, ignoreCase);
      }
      AnsweredIsMatch(tail, s[k..], n - k, ignoreCase);
      if q.Any? || q.Many? {
        assert RepeatThen(op, tail, s, n, k, ignoreCase);
      } else if Take(op, s, ignoreCase).Some? {
        assert OnceThen(op, tail, s, n, ignoreCase);
      }
    }
  }

  lemma AllTakenOnce(op: string, s: string, k: nat, h: nat, ignoreCase: bool)
    requires Complete(op) && AllTaken(op, s, k, ignoreCase) && Repeats(op, s, h, ignoreCase)
    ensures h <= k
  {}

  lemma OnePreference(op: string, q: Quantity, tail: seq<Item>, s: string, k: nat, h: nat, ignoreCase: bool)
    requires Complete(op) && AllValid(tail)
    requires Prefers(op, q, tail, s, k, ignoreCase) && Prefers(op, q, tail, s, h, ignoreCase)
    ensures k == h
  {
    hide FoundAfter, FallsBack;
  }

  /** How many characters the item in front takes for an answer. */
  ghost predicate TakesInFront(items: seq<Item>, s: string, k: nat, ignoreCase: bool)
    requires AllValid(items) && items != [] && items[0].Item?
  {
    match items[0].quantity
    case Once => Take(items[0].op, s, ignoreCase) == Some(k)
    case Optional => Take(items[0].op, s, ignoreCase).GetOr(0) == k
    case q => Prefers(items[0].op, q, items[1..], s, k, ignoreCase)
  }

  lemma InFront(items: seq<Item>, s: string, n: nat, ignoreCase: bool) returns (k: nat)
    requires AllValid(items) && items != [] && Answered(items, s, n, ignoreCase)
    ensures items[0].Item? && TakesInFront(items, s, k, ignoreCase)
    ensures AnsweredBehind(items[1..], s, n, k, ignoreCase)
  {
    hide Take, Prefers, GoodEscape;
    var op, q, tail := items[0].op, items[0].quantity, items[1..];
    match q {
      case Once => k := Take(op, s, ignoreCase).value;
      case Optional => k := Take(op, s, ignoreCase).GetOr(0);
      case _ => k :| Prefers(op, q, tail, s, k, ignoreCase) && AnsweredBehind(tail, s, n, k, ignoreCase);
    }
  }

  lemma OneInFront(items: seq<Item>, s: string, k: nat, h: nat, ignoreCase: bool)
    requires AllValid(items) && items != [] && items[0].Item?
    requires TakesInFront(items, s, k, ignoreCase) && TakesInFront(items, s, h, ignoreCase)
    ensures k == h
  {
    hide Take, Prefers, GoodEscape;
    if items[0].quantity.Any? || items[0].quantity.Many? {
      OnePreference(items[0].op, items[0].quantity, items[1..], s, k, h, ignoreCase);
    }
  }

  lemma {:induction false} OneAnswer(items: seq<Item>, s: string, n: nat, m: nat, ignoreCase: bool)
    requires AllValid(items) && Answered(items, s, n, ignoreCase) && Answered(items, s, m, ignoreCase)
    ensures n == m
    decreases |items|
  {
    hide TakesInFront, Take, Prefers, GoodEscape;
    if items != [] {
      var k := InFront(items, s, n, ignoreCase);
      var h := InFront(items, s, m, ignoreCase);
      OneInFront(items, s, k, h, ignoreCase);
      OneAnswer(items[1..], s[k..], n - k, m - k, ignoreCase);
    }
  }

  /** A greedy star takes the greatest number behind which the rest is found,
      exactly if it does not fall back or had none to take. */
  lemma StarIsGreedy(op: string, tail: seq<Item>, s: string, k: nat, ignoreCase: bool)
    requires Complete(op) && AllValid(tail) && Prefers(op, Any(false), tail, s, k, ignoreCase)
    ensures NoneAbove(op, tail, s, k, ignoreCase) <==>
            !FallsBack(op, tail, s, ignoreCase) || NoneAbove(op, tail, s, 0, ignoreCase)
  {
    hide Found, FallsBack;
  }

  /** The greatest number from k on behind which the rest is found. */
  lemma {:induction false} GreatestFound(op: string, tail: seq<Item>, s: string, k: nat, ignoreCase: bool)
    returns (h: nat)
    requires Complete(op) && AllValid(tail) && FoundAfter(op, tail, s, k, ignoreCase)
    ensures h >= k && FoundAfter(op, tail, s, h, ignoreCase) && NoneAbove(op, tail, s, h, ignoreCase)
    decreases |s| - k
  {
    hide Take, Found;
    if j: nat :| j > k && FoundAfter(op, tail, s, j, ignoreCase) {
      h := GreatestFound(op, tail, s, j, ignoreCase);
    } else {
      h := k;
    }
  }

  lemma {:induction false} LeastFound(op: string, tail: seq<Item>, s: string, k: nat, ignoreCase: bool) returns (h: nat)
    requires Complete(op) && AllValid(tail) && k > 0 && FoundAfter(op, tail, s, k, ignoreCase)
    ensures h > 0 && FoundAfter(op, tail, s, h, ignoreCase) && NoneBelow(op, tail, s, h, ignoreCase)
    decreases k
  {
    hide Take, Found, Repeats;
    if j: nat :| 0 < j < k && FoundAfter(op, tail, s, j, ignoreCase) {
      h := LeastFound(op, tail, s, j, ignoreCase);
    } else {
      h := k;
    }
  }

  /** A repetition behind which the rest can be found prefers some number. */
  lemma SomePreference(op: string, q: Quantity, tail: seq<Item>, s: string, k: nat, ignoreCase: bool) returns (h: nat)
    requires Complete(op) && AllValid(tail) && FoundAfter(op, tail, s, k, ignoreCase)
    requires q.Any? || (q.Many? && k > 0)
    ensures Prefers(op, q, tail, s, h, ignoreCase)
  {
    hide Take, Found, Answered;
    if q.lazy {
      if j: nat :| j > 0 && FoundAfter(op, tail, s, j, ignoreCase) {
        h := LeastFound(op, tail, s, j, ignoreCase);
      } else {
        h := 0;
      }
    } else if q.Any? && FallsBack(op, tail, s, ignoreCase) {
      h := 0;
      FallsOnFound(op, tail, s, ignoreCase);
    } else {
      h := GreatestFound(op, tail, s, k, ignoreCase);
    }
  }

  lemma FallsOnFound(op: string, tail: seq<Item>, s: string, ignoreCase: bool)
    requires Complete(op) && AllValid(tail) && FallsBack(op, tail, s, ignoreCase)
    ensures FoundAfter(op, tail, s, 0, ignoreCase)
  {
    hide Take, Found, Answered;
    var n: nat :| n > 0 && Answered(tail, s, n, ignoreCase);
    AnsweredIsMatch(tail, s, n, ignoreCase);
    assert s[0..] == s;
  }

  /** Whatever is found has its answer. */
  lemma {:induction false} FoundIsAnswered(items: seq<Item>, s: string, ignoreCase: bool) returns (n: nat)
    requires AllValid(items) && Found(items, s, ignoreCase)
    ensures Answered(items, s, n, ignoreCase)
    decreases |items|
  {
    hide Take, Prefers, FoundAfter, GoodEscape;
    if items == [] {
      return 0;
    }
    var op, q, tail := items[0].op, items[0].quantity, items[1..];
    var k: nat;
    match q {
      case Once => k := Take(op, s, ignoreCase).value;
      case Optional => k := Take(op, s, ignoreCase).GetOr(0);
      case _ =>
        k :| (q.Many? ==> k > 0) && FoundAfter(op, tail, s, k, ignoreCase);
        k := SomePreference(op, q, tail, s, k, ignoreCase);
        PrefersFound(op, q, tail, s, k, ignoreCase);
    }
    n := FoundIsAnswered(tail, s[k..], ignoreCase);
    assert n + k - k == n;
    n := n + k;
    assert AnsweredBehind(tail, s, n, k, ignoreCase);
  }

  lemma PrefersFound(op: string, q: Quantity, tail: seq<Item>, s: string, k: nat, ignoreCase: bool)
    requires Complete(op) && AllValid(tail) && Prefers(op, q, tail, s, k, ignoreCase)
    ensures k <= |s| && Found(tail, s[k..], ignoreCase)
  {}

  lemma TakesNothing(op: string, s: string, ignoreCase: bool)
    requires Complete(op)
    ensures Take(op, s, ignoreCase) == Some(0) ==> Anchor(op)
  {}

  /** What is clear of op and matches in front of a character that op takes
      matches behind it too. */
  lemma {:induction false} ClearSkips(op: string, tail: seq<Item>, s: string, n: nat, ignoreCase: bool)
    requires Complete(op) && AllValid(tail) && Clear(op, tail, ignoreCase)
    requires s != [] && Accepts(op, s[0], ignoreCase) && Matches(tail, s, n, ignoreCase)
    ensures Matches(tail, s[1..], n, ignoreCase)
    decreases |tail|
  {
    hide Accepts, GoodEscape;
    if tail != [] {
      var next, q, rest := tail[0].op, tail[0].quantity, tail[1..];
      assert s[0..] == s && s[1..][0..] == s[1..];
      assert Take(next, s[0..], ignoreCase) != Some(1);
      if q.Any? {
        var k: nat :| RepeatThen(next, rest, s, n, k, ignoreCase);
        assert k == 0;
      }
      ClearSkips(op, rest, s, n, ignoreCase);
      if q.Any? {
        assert RepeatThen(next, rest, s[1..], n, 0, ignoreCase);
      }
    }
  }

  /** Of items without a plus after an anchor, and with optional ops that what
      follows is clear of, every match is found. */
  lemma {:induction false} MatchIsFound(items: seq<Item>, s: string, n: nat, ignoreCase: bool)
    requires AllValid(items) && Exhaustive(items, ignoreCase) && Matches(items, s, n, ignoreCase)
    ensures Found(items, s, ignoreCase)
    decreases |items|
  {
    hide Accepts, GoodEscape, Clear;
    if items != [] {
      var op, q, tail := items[0].op, items[0].quantity, items[1..];
      TakesNothing(op, s, ignoreCase);
      assert s[0..] == s;
      var k: nat, m: nat;
      match q {
        case Once =>
          k := Take(op, s, ignoreCase).value;
          m := n - k;
        case Optional =>
          k := Take(op, s, ignoreCase).GetOr(0);
          if OnceThen(op, tail, s, n, ignoreCase) {
            m := n - k;
          } else {
            m := n;
            if k == 1 {
              ClearSkips(op, tail, s, n, ignoreCase);
            }
          }
        case Any(_) =>
          k :| RepeatThen(op, tail, s, n, k, ignoreCase);
          m := n - k;
        case Many(_) =>
          k :| k > 0 && RepeatThen(op, tail, s, n, k, ignoreCase);
          m := n - k;
      }
      MatchIsFound(tail, s[k..], m, ignoreCase);
      assert q.Any? || q.Many? ==> FoundAfter(op, tail, s, k, ignoreCase);
    }
  }

  // ----- what an optional op hides -----

  lemma OptionalAt(op: string, tail: seq<Item>, s: string, ignoreCase: bool)
    requires Complete(op) && AllValid(tail) && AllValid([Item(op, Optional)] + tail)
    requires Exhaustive(tail, ignoreCase)
    ensures var items, k := [Item(op, Optional)] + tail, Take(op, s, ignoreCase);
            && (HasMatch(items, s, ignoreCase) <==>
                HasMatch(tail, s, ignoreCase) || (k.Some? && HasMatch(tail, s[k.value..], ignoreCase)))
            && (Found(items, s, ignoreCase) <==> HasMatch(tail, s[k.GetOr(0)..], ignoreCase))
  {
    hide Take, Accepts, GoodEscape, Exhaustive;
    var items, k := [Item(op, Optional)] + tail, Take(op, s, ignoreCase);
    assert items[1..] == tail && s[0..] == s;
    forall n: nat ensures Matches(items, s, n, ignoreCase)
                          <==> Matches(tail, s, n, ignoreCase) || OnceThen(op, tail, s, n, ignoreCase) {}
    if k.Some? {
      forall n: nat | Matches(tail, s[k.value..], n, ignoreCase)
        ensures OnceThen(op, tail, s, n + k.value, ignoreCase)
      {
        assert n + k.value - k.value == n;
      }
      if n: nat :| Matches(tail, s[k.value..], n, ignoreCase) {
        assert Matches(items, s, n + k.value, ignoreCase);
      }
    }
    if n: nat :| Matches(items, s, n, ignoreCase) {
      assert Matches(tail, s, n, ignoreCase) || Matches(tail, s[k.value..], n - k.value, ignoreCase);
    }
    if n: nat :| Matches(tail, s, n, ignoreCase) {
      assert Matches(items, s, n, ignoreCase);
    }
    var rest := s[k.GetOr(0)..];
    if n: nat :| Matches(tail, rest, n, ignoreCase) {
      MatchIsFound(tail, rest, n, ignoreCase);
    }
    if Found(tail, rest, ignoreCase) {
      FoundIsMatch(tail, rest, ignoreCase);
    }
  }

  /** An optional op in front hides no match, on any subject, exactly if what
      follows matches behind a character that the op takes wherever it matches
      in front of one. */
  lemma OptionalExactly(op: string, tail: seq<Item>, ignoreCase: bool)
    requires Complete(op) && AllValid(tail) && AllValid([Item(op, Optional)] + tail)
    requires Exhaustive(tail, ignoreCase)
    ensures (forall s: string | HasMatch([Item(op, Optional)] + tail, s, ignoreCase) ::
               Found([Item(op, Optional)] + tail, s, ignoreCase))
            <==> (forall s: string | Take(op, s, ignoreCase) == Some(1) && HasMatch(tail, s, ignoreCase) ::
                    HasMatch(tail, s[1..], ignoreCase))
  {
    hide Take, Found, HasMatch, GoodEscape, Exhaustive, AllValid;
    var items := [Item(op, Optional)] + tail;
    forall s: string
      ensures (HasMatch(items, s, ignoreCase) ==> Found(items, s, ignoreCase))
              <==> (Take(op, s, ignoreCase) == Some(1) && HasMatch(tail, s, ignoreCase) ==>
                    HasMatch(tail, s[1..], ignoreCase))
    {
      OptionalAt(op, tail, s, ignoreCase);
      assert s[0..] == s;
    }
  }

  // ----- matches of nothing -----

  /** Every item can take no characters: a repetition that need not happen, or
      an anchor. */
  predicate Nullable(items: seq<Item>)
  {
    items == [] || (CanTakeNothing(items[0]) && Nullable(items[1..]))
  }

  predicate CanTakeNothing(item: Item)
  {
    item.Item? && (item.quantity == Optional || item.quantity.Any? || Anchor(item.op))
  }

  /** Only such items match no characters. */
  lemma {:induction false} MatchOfNothing(items: seq<Item>, s: string, n: nat, ignoreCase: bool)
    requires AllValid(items) && Matches(items, s, n, ignoreCase) && n == 0
    ensures Nullable(items)
    decreases |items|
  {
    hide Take, Accepts, GoodEscape;
    if items != [] {
      var op, q, tail := items[0].op, items[0].quantity, items[1..];
      TakesNothing(op, s, ignoreCase);
      assert s[0..] == s;
      match q {
        case Any(_) =>
          var k: nat :| RepeatThen(op, tail, s, n, k, ignoreCase);
        case _ =>
      }
      MatchOfNothing(tail, s, n, ignoreCase);
    }
  }

  /** At the end of a subject they all do. */
  lemma {:induction false} NullableMatches(items: seq<Item>, n: nat, ignoreCase: bool)
    requires AllValid(items) && Nullable(items) && n == 0
    ensures Matches(items, "", n, ignoreCase)
    decreases |items|
  {
    if items != [] {
      var op, q, tail := items[0].op, items[0].quantity, items[1..];
      assert ""[0..] == "";
      NullableMatches(tail, n, ignoreCase);
      if q.Any? {
        assert RepeatThen(op, tail, "", n, 0, ignoreCase);
      }
    }
  }

  /** Of an empty subject nothing else is found. */
  lemma {:induction false} FoundOfNothing(items: seq<Item>, ignoreCase: bool)
    requires AllValid(items) && Found(items, "", ignoreCase)
    ensures Nullable(items)
    decreases |items|
  {
    if items != [] {
      TakesNothing(items[0].op, "", ignoreCase);
      assert ""[0..] == "";
      FoundOfNothing(items[1..], ignoreCase);
    }
  }

  /** Items that need not take anything. */
  predicate Idle(items: seq<Item>)
  {
    items == [] || (items[0].Item? && (items[0].quantity.Any? || items[0].quantity == Optional) && Idle(items[1..]))
  }

  /** They are found everywhere. */
  lemma {:induction false} IdleFound(items: seq<Item>, s: string, ignoreCase: bool)
    requires AllValid(items) && Idle(items)
    ensures Found(items, s, ignoreCase)
    decreases |items|
  {
    hide Accepts, GoodEscape;
    if items != [] {
      var op, tail := items[0].op, items[1..];
      assert s[0..] == s;
      if items[0].quantity.Any? {
        IdleFound(tail, s, ignoreCase);
        assert FoundAfter(op, tail, s, 0, ignoreCase);
      } else {
        IdleFound(tail, s[Take(op, s, ignoreCase).GetOr(0)..], ignoreCase);
      }
    }
  }
}
