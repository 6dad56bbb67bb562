/**
 The part of Python's backtracking `re` matcher that runtime/rerank_daemon.py uses:
 greedy and lazy repetition of one-character classes, ordered alternatives, one capturing
 group, `^`, `\b` and a look-ahead for a class or the end of the text.
 A pattern is a list of items; matching tries them in order, and a repetition tries its
 counts in the order the engine does, falling back when the rest of the pattern fails.
 */
module PyRegex {
  import opened Text

  type Class = CodePoint -> bool

  datatype Item =
    | One(p: Class)
    | Greedy(p: Class, min: nat)
    | Lazy(p: Class)
    | Either(a: seq<Item>, b: seq<Item>)
    | Start
    | WordEdge(word: Class)
    | Ahead(p: Class)
    | GroupStart
    | GroupEnd

  type Pattern = seq<Item>

  /** Where the match ends, and the span of group 1. */
  datatype Match = Match(end: nat, groupFrom: nat, groupTo: nat)

  /** Items nested in an alternative count too. */
  function Size(re: Pattern): nat
    decreases re
  {
    if re == [] then 0
    else 1 + Size(re[1..]) + (if re[0].Either? then Size(re[0].a) + Size(re[0].b) else 0)
  }

  lemma {:induction false} SizeAppend(a: Pattern, b: Pattern)
    ensures Size(a + b) == Size(a) + Size(b)
  {
    if a == [] {
      assert a + b == b;
    } else {
      assert (a + b)[1..] == a[1..] + b;
      SizeAppend(a[1..], b);
    }
  }

  /** The first match, in the engine's order, of re at position i; from and to are group 1 so far. */
  function MatchAt(re: Pattern, s: U32, i: nat, from: nat, to: nat): (m: Option<Match>)
    requires i <= |s|
    ensures m.Some? ==> i <= m.value.end <= |s|
    decreases Size(re), 1, 0
  {
    if re == [] then Some(Match(i, from, to))
    else
      var rest := re[1..];
      match re[0]
      case One(p) => if i < |s| && p(s[i]) then MatchAt(rest, s, i + 1, from, to) else None
      case Greedy(p, min) => Shrink(rest, s, i, Span(s[i..], p), min, from, to)
      case Lazy(p) => Grow(rest, s, i, 0, Span(s[i..], p), from, to)
      case Either(a, b) =>
        SizeAppend(a, rest);
        SizeAppend(b, rest);
        var first := MatchAt(a + rest, s, i, from, to);
        if first.Some? then first else MatchAt(b + rest, s, i, from, to)
      case Start => if i == 0 then MatchAt(rest, s, i, from, to) else None
      case WordEdge(word) =>
        var before := i > 0 && word(s[i - 1]);
        var after := i < |s| && word(s[i]);
        if before != after then MatchAt(rest, s, i, from, to) else None
      case Ahead(p) => if i == |s| || p(s[i]) then MatchAt(rest, s, i, from, to) else None
      case GroupStart => MatchAt(rest, s, i, i, to)
      case GroupEnd => MatchAt(rest, s, i, from, i)
  }

  /** Greedy repetition: n characters first, then one fewer, down to min. */
  function Shrink(rest: Pattern, s: U32, i: nat, n: nat, min: nat, from: nat, to: nat): (m: Option<Match>)
    requires i + n <= |s|
    ensures m.Some? ==> i <= m.value.end <= |s|
    decreases Size(rest), 2, n
  {
    if n < min then None
    else
      var m := MatchAt(rest, s, i + n, from, to);
      if m.Some? || n == 0 then m else Shrink(rest, s, i, n - 1, min, from, to)
  }

  /** Lazy repetition: n characters first, then one more, up to max. */
  function Grow(rest: Pattern, s: U32, i: nat, n: nat, max: nat, from: nat, to: nat): (m: Option<Match>)
    requires n <= max && i + max <= |s|
    ensures m.Some? ==> i <= m.value.end <= |s|
    decreases Size(rest), 2, max - n
  {
    var m := MatchAt(rest, s, i + n, from, to);
    if m.Some? || n == max then m else Grow(rest, s, i, n + 1, max, from, to)
  }

  /** What a match is replaced by. */
  datatype Replacement = Fixed(text: U32) | Group1

  /** `re.sub` from position i on, for patterns that match no empty string. */
  function Sub(re: Pattern, r: Replacement, s: U32, i: nat): U32
    requires i <= |s|
    decreases |s| - i
  {
    if i == |s| then []
    else
      var m := MatchAt(re, s, i, 0, 0);
      if m.Some? && m.value.end > i then
        (match r
         case Fixed(text) => text
         case Group1 =>
           if m.value.groupFrom <= m.value.groupTo <= |s| then s[m.value.groupFrom..m.value.groupTo] else [])
        + Sub(re, r, s, m.value.end)
      else [s[i]] + Sub(re, r, s, i + 1)
  }

  // ----- reasoning about the matcher -----

  lemma MatchNil(s: U32, i: nat, from: nat, to: nat)
    requires i <= |s|
    ensures MatchAt([], s, i, from, to) == Some(Match(i, from, to))
  {
  }

  /** When every longer count fails, a greedy repetition behaves as if it began at n. */
  lemma {:induction false} ShrinkSkips(rest: Pattern, s: U32, i: nat, top: nat, n: nat, min: nat)
    requires min <= n <= top && i + top <= |s|
    requires forall k :: i + n < k <= i + top ==> MatchAt(rest, s, k, 0, 0).None?
    ensures Shrink(rest, s, i, top, min, 0, 0) == Shrink(rest, s, i, n, min, 0, 0)
    decreases top - n
  {
    if n < top {
      assert MatchAt(rest, s, i + top, 0, 0).None?;
      ShrinkSkips(rest, s, i, top - 1, n, min);
    }
  }

  lemma {:induction false} ShrinkNone(rest: Pattern, s: U32, i: nat, n: nat, min: nat, from: nat, to: nat)
    requires i + n <= |s|
    requires forall k :: i + min <= k <= i + n ==> MatchAt(rest, s, k, from, to).None?
    ensures Shrink(rest, s, i, n, min, from, to).None?
    decreases n
  {
    if n >= min {
      assert MatchAt(rest, s, i + n, from, to).None?;
      if n > 0 {
        ShrinkNone(rest, s, i, n - 1, min, from, to);
      }
    }
  }

  /** A pattern that matches nowhere replaces nothing. */
  lemma {:induction false} SubNoMatch(re: Pattern, r: Replacement, s: U32, i: nat)
    requires i <= |s|
    requires forall k :: i <= k < |s| ==> MatchAt(re, s, k, 0, 0).None?
    ensures Sub(re, r, s, i) == s[i..]
    decreases |s| - i
  {
    if i < |s| {
      assert MatchAt(re, s, i, 0, 0).None?;
      SubNoMatch(re, r, s, i + 1);
      assert s[i..] == [s[i]] + s[i + 1..];
    }
  }
}
