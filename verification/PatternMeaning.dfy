/** What each pattern of runtime/rerank_daemon.py matches, worked out from the backtracking matcher. */
module PatternMeaning {
  import opened Text
  import opened PyRegex
  import C = ContextClip
  import P = PyContext

  lemma MatchGreedy(p: Class, min: nat, rest: Pattern, s: U32, i: nat)
    requires i <= |s|
    ensures MatchAt([Greedy(p, min)] + rest, s, i, 0, 0) == Shrink(rest, s, i, Span(s[i..], p), min, 0, 0)
  {
    assert ([Greedy(p, min)] + rest)[1..] == rest;
    hide Span, Shrink;
  }

  /** A greedy repetition whose longest count is followed by a match. */
  lemma ShrinkFirst(rest: Pattern, s: U32, i: nat, n: nat, min: nat)
    requires i + n <= |s|
    ensures n < min ==> Shrink(rest, s, i, n, min, 0, 0).None?
    ensures n >= min && MatchAt(rest, s, i + n, 0, 0).Some? ==>
      Shrink(rest, s, i, n, min, 0, 0) == MatchAt(rest, s, i + n, 0, 0)
  {
    hide MatchAt;
  }

  lemma GreedyAlone(p: Class, min: nat, s: U32, i: nat)
    requires i <= |s|
    ensures var n := Span(s[i..], p);
      MatchAt([Greedy(p, min)], s, i, 0, 0) == if n >= min then Some(Match(i + n, 0, 0)) else None
  {
    hide *;
    var n := Span(s[i..], p);
    MatchGreedy(p, min, [], s, i);
    assert [Greedy(p, min)] + [] == [Greedy(p, min)];
    MatchNil(s, i + n, 0, 0);
    ShrinkFirst([], s, i, n, min);
  }

  lemma InsideBody(s: U32, j: nat, k: nat)
    requires j <= |s| && j <= k < j + Span(s[j..], C.IsHeadingBody)
    ensures Span(s[k..], C.IsEq) == 0
  {
    assert C.IsHeadingBody(s[j..][k - j]);
    assert !C.IsEq(s[k..][0]);
  }

  /** The heading body and what follows: only the full body can be followed by a '='. */
  lemma BodyThenEq(s: U32, j: nat)
    requires j <= |s|
    ensures var b := j + Span(s[j..], C.IsHeadingBody); var c := b + Span(s[b..], C.IsEq);
      MatchAt([Greedy(C.IsHeadingBody, 0)] + [Greedy(C.IsEq, 2)], s, j, 0, 0) ==
        if c - b >= 2 then Some(Match(c, 0, 0)) else None
  {
    hide *;
    var n := Span(s[j..], C.IsHeadingBody);
    forall k | j <= k < j + n
      ensures MatchAt([Greedy(C.IsEq, 2)], s, k, 0, 0).None?
    {
      InsideBody(s, j, k);
      GreedyAlone(C.IsEq, 2, s, k);
    }
    GreedyAlone(C.IsEq, 2, s, j + n);
    MatchGreedy(C.IsHeadingBody, 0, [Greedy(C.IsEq, 2)], s, j);
    ShrinkFirst([Greedy(C.IsEq, 2)], s, j, n, 0);
    if MatchAt([Greedy(C.IsEq, 2)], s, j + n, 0, 0).None? {
      ShrinkNone([Greedy(C.IsEq, 2)], s, j, n, 0, 0, 0);
    }
  }

  /** The heading pattern as a matcher: unlike the C++ scanner it can split one '=' run. */
  function PyHeading(s: U32): (h: Option<C.Hit>)
    ensures h.Some? ==> C.Usable(h, s)
  {
    var a := Span(s, C.IsEq);
    if C.Heading(s).Some? then C.Heading(s)
    else if a >= 4 then Some(C.Hit(a, [C.SPACE]))
    else None
  }

  const AFTER_RUN: Pattern := [Greedy(C.IsHeadingBody, 0)] + [Greedy(C.IsEq, 2)]

  /** Inside a '=' run the body is empty and the rest of the run has to close the heading. */
  lemma InsideRun(s: U32, i: nat, k: nat)
    requires i <= |s| && i <= k < i + Span(s[i..], C.IsEq)
    ensures MatchAt(AFTER_RUN, s, k, 0, 0) ==
      if i + Span(s[i..], C.IsEq) - k >= 2 then Some(Match(i + Span(s[i..], C.IsEq), 0, 0)) else None
  {
    hide *;
    RunChars(s, i, k);
    EqBehind(s, k, i + Span(s[i..], C.IsEq));
  }

  /** An empty body and the equals signs up to a. */
  lemma EqBehind(s: U32, k: nat, a: nat)
    requires k <= a <= |s| && (forall m :: k <= m < a ==> C.IsEq(s[m])) && (a < |s| ==> !C.IsEq(s[a]))
    requires Span(s[k..], C.IsHeadingBody) == 0
    ensures MatchAt(AFTER_RUN, s, k, 0, 0) == if a - k >= 2 then Some(Match(a, 0, 0)) else None
  {
    hide *;
    AfterRun(s, k);
    SpanFrom(s, k, k, a, |s|, C.IsEq);
    assert s[k..][0..] == s[k..];
  }

  lemma RunChars(s: U32, i: nat, k: nat)
    requires i <= |s| && i <= k < i + Span(s[i..], C.IsEq)
    ensures var a := i + Span(s[i..], C.IsEq);
      k <= a <= |s| && (forall m :: k <= m < a ==> C.IsEq(s[m])) && (a < |s| ==> !C.IsEq(s[a]))
    ensures Span(s[k..], C.IsHeadingBody) == 0
  {
    var a := i + Span(s[i..], C.IsEq);
    forall m | k <= m < a
      ensures C.IsEq(s[m])
    {
      assert C.IsEq(s[i..][m - i]);
    }
    assert a < |s| ==> s[i..][a - i] == s[a];
    assert !C.IsHeadingBody(s[k..][0]);
  }

  lemma HeadingItems()
    ensures P.WIKI_HEADING == [Greedy(C.IsEq, 2)] + AFTER_RUN
  {
  }

  /** Which count the first '=' run settles on. */
  lemma ShrinkRun(s: U32, i: nat)
    requires i < |s|
    ensures var n := Span(s[i..], C.IsEq); var full := MatchAt(AFTER_RUN, s, i + n, 0, 0);
      Shrink(AFTER_RUN, s, i, n, 2, 0, 0) ==
        if n < 2 then None else if full.Some? then full else if n >= 4 then Some(Match(i + n, 0, 0)) else None
  {
    hide *;
    var n := Span(s[i..], C.IsEq);
    ShrinkFirst(AFTER_RUN, s, i, n, 2);
    forall k | i <= k < i + n
      ensures MatchAt(AFTER_RUN, s, k, 0, 0) == if i + n - k >= 2 then Some(Match(i + n, 0, 0)) else None
    {
      InsideRun(s, i, k);
    }
    if n >= 2 && MatchAt(AFTER_RUN, s, i + n, 0, 0).None? {
      if n >= 4 {
        ShrinkSkips(AFTER_RUN, s, i, n, n - 2, 2);
        ShrinkFirst(AFTER_RUN, s, i, n - 2, 2);
      } else {
        ShrinkNone(AFTER_RUN, s, i, n, 2, 0, 0);
      }
    }
  }

  lemma MatchHeading(s: U32, i: nat)
    requires i < |s|
    ensures MatchAt(P.WIKI_HEADING, s, i, 0, 0) ==
      match PyHeading(s[i..]) { case Some(h) => Some(Match(i + h.n, 0, 0)) case None => None }
  {
    hide Span, MatchAt, Shrink, C.Heading, P.WIKI_HEADING, AFTER_RUN;
    var n := Span(s[i..], C.IsEq);
    HeadingItems();
    C.HeadingAt(s, i, i + n);
    AfterRun(s, i + n);
    MatchGreedy(C.IsEq, 2, AFTER_RUN, s, i);
    ShrinkRun(s, i);
  }

  lemma AfterRun(s: U32, j: nat)
    requires j <= |s|
    ensures var b := j + Span(s[j..], C.IsHeadingBody); var c := b + Span(s[b..], C.IsEq);
      MatchAt(AFTER_RUN, s, j, 0, 0) == if c - b >= 2 then Some(Match(c, 0, 0)) else None
  {
    hide Span, MatchAt;
    BodyThenEq(s, j);
  }

  // ----- bullets -----

  const MARK: Pattern := [Greedy(C.IsBulletChar, 1)] + [Ahead(P.IsPySpace)]

  /** The run of bullet characters at j, if a space or the end of the text follows it. */
  function MarkLen(s: U32): (n: nat)
    ensures n <= |s|
  {
    var n := Span(s, C.IsBulletChar);
    if n == |s| || P.IsPySpace(s[n]) then n else 0
  }

  lemma MatchAhead(p: Class, s: U32, i: nat)
    requires i <= |s|
    ensures MatchAt([Ahead(p)], s, i, 0, 0) == if i == |s| || p(s[i]) then Some(Match(i, 0, 0)) else None
  {
    assert [Ahead(p)][1..] == [];
  }

  lemma InsideMark(s: U32, j: nat, k: nat)
    requires j <= |s| && j <= k < j + Span(s[j..], C.IsBulletChar)
    ensures MatchAt([Ahead(P.IsPySpace)], s, k, 0, 0).None?
  {
    assert C.IsBulletChar(s[j..][k - j]);
    assert !P.IsPySpace(s[k]);
    hide *;
    MatchAhead(P.IsPySpace, s, k);
  }

  lemma MarkLenAt(s: U32, j: nat)
    requires j <= |s|
    ensures var n := Span(s[j..], C.IsBulletChar);
      MarkLen(s[j..]) == if j + n == |s| || P.IsPySpace(s[j + n]) then n else 0
  {
    hide Span, P.IsPySpace;
  }

  lemma MatchMark(s: U32, j: nat)
    requires j <= |s|
    ensures MatchAt(MARK, s, j, 0, 0) == if MarkLen(s[j..]) > 0 then Some(Match(j + MarkLen(s[j..]), 0, 0)) else None
  {
    hide Span, MatchAt, Shrink, MarkLen, P.IsPySpace, C.IsBulletChar;
    var n := Span(s[j..], C.IsBulletChar);
    var rest := [Ahead(P.IsPySpace)];
    MarkLenAt(s, j);
    MatchAhead(P.IsPySpace, s, j + n);
    MatchGreedy(C.IsBulletChar, 1, rest, s, j);
    ShrinkFirst(rest, s, j, n, 1);
    if n >= 1 && MatchAt(rest, s, j + n, 0, 0).None? {
      forall k | j <= k < j + n
        ensures MatchAt(rest, s, k, 0, 0).None?
      {
        InsideMark(s, j, k);
      }
      ShrinkNone(rest, s, j, n, 1, 0, 0);
    }
  }

  lemma MatchEither(a: Pattern, b: Pattern, rest: Pattern, s: U32, i: nat)
    requires i <= |s|
    ensures MatchAt([Either(a, b)] + rest, s, i, 0, 0) ==
      var first := MatchAt(a + rest, s, i, 0, 0); if first.Some? then first else MatchAt(b + rest, s, i, 0, 0)
  {
    assert ([Either(a, b)] + rest)[1..] == rest;
    SizeAppend(a, rest);
    SizeAppend(b, rest);
  }

  lemma MatchOne(p: Class, rest: Pattern, s: U32, i: nat)
    requires i <= |s|
    ensures MatchAt([One(p)] + rest, s, i, 0, 0) ==
      if i < |s| && p(s[i]) then MatchAt(rest, s, i + 1, 0, 0) else None
  {
    assert ([One(p)] + rest)[1..] == rest;
  }

  lemma MatchStart(rest: Pattern, s: U32, i: nat)
    requires i <= |s|
    ensures MatchAt([Start] + rest, s, i, 0, 0) == if i == 0 then MatchAt(rest, s, i, 0, 0) else None
  {
    assert ([Start] + rest)[1..] == rest;
  }

  /** The bullet pattern takes the space in front of the mark with it. */
  function PyBulletLen(atStart: bool, s: U32): (n: nat)
    ensures n <= |s|
  {
    if s == [] then 0
    else if atStart && MarkLen(s) > 0 then MarkLen(s)
    else if P.IsPySpace(s[0]) && MarkLen(s[1..]) > 0 then 1 + MarkLen(s[1..])
    else 0
  }

  lemma BulletItems()
    ensures P.BULLET_MARK == [Either([Start], [One(P.IsPySpace)])] + MARK
  {
  }

  lemma BulletPosition(s: U32, i: nat)
    requires i < |s|
    ensures MatchAt(P.BULLET_MARK, s, i, 0, 0) ==
      if i == 0 && MatchAt(MARK, s, i, 0, 0).Some? then MatchAt(MARK, s, i, 0, 0)
      else if P.IsPySpace(s[i]) then MatchAt(MARK, s, i + 1, 0, 0)
      else None
  {
    hide *;
    BulletItems();
    MatchEither([Start], [One(P.IsPySpace)], MARK, s, i);
    MatchStart(MARK, s, i);
    MatchOne(P.IsPySpace, MARK, s, i);
  }

  lemma PyBulletLenAt(s: U32, i: nat)
    requires i < |s|
    ensures PyBulletLen(i == 0, s[i..]) ==
      if i == 0 && MarkLen(s[i..]) > 0 then MarkLen(s[i..])
      else if P.IsPySpace(s[i]) && MarkLen(s[i + 1..]) > 0 then 1 + MarkLen(s[i + 1..])
      else 0
  {
    hide MarkLen, P.IsPySpace;
    assert s[i..][1..] == s[i + 1..];
  }

  lemma MatchBullet(s: U32, i: nat)
    requires i < |s|
    ensures MatchAt(P.BULLET_MARK, s, i, 0, 0) ==
      var n := PyBulletLen(i == 0, s[i..]); if n > 0 then Some(Match(i + n, 0, 0)) else None
  {
    hide *;
    BulletPosition(s, i);
    PyBulletLenAt(s, i);
    MatchMark(s, i);
    MatchMark(s, i + 1);
  }

  /** The bullet substitution on suffixes. */
  function PyBullets(atStart: bool, s: U32): U32
    decreases |s|
  {
    if s == [] then []
    else
      var n := PyBulletLen(atStart, s);
      if n > 0 then [C.SPACE] + PyBullets(false, s[n..]) else [s[0]] + PyBullets(false, s[1..])
  }

  lemma {:induction false} SubBullets(s: U32, i: nat)
    requires i <= |s|
    ensures Sub(P.BULLET_MARK, Fixed([C.SPACE]), s, i) == PyBullets(i == 0, s[i..])
    decreases |s| - i
  {
    hide MatchAt, PyBulletLen, P.BULLET_MARK;
    if i < |s| {
      MatchBullet(s, i);
      var n := PyBulletLen(i == 0, s[i..]);
      assert s[i..][n..] == s[i + n..] && s[i..][1..] == s[i + 1..];
      SubBullets(s, if n > 0 then i + n else i + 1);
    }
  }

  // ----- substitutions without a left context -----

  /** The matcher m says at every position from i on what the pattern says. */
  ghost predicate Describes(m: C.Matcher, re: Pattern, text: U32, s: U32, i: nat)
    requires i <= |s|
  {
    forall k | i <= k < |s| ::
      MatchAt(re, s, k, 0, 0) ==
        (match m(s[k..]) { case Some(h) => Some(Match(k + h.n, 0, 0)) case None => None })
      && (m(s[k..]).Some? ==> C.Usable(m(s[k..]), s[k..]) && m(s[k..]).value.text == text)
  }

  lemma {:induction false} SubSubstitutes(m: C.Matcher, re: Pattern, text: U32, s: U32, i: nat)
    requires i <= |s| && Describes(m, re, text, s, i)
    ensures Sub(re, Fixed(text), s, i) == C.Substitute(m, s[i..])
    decreases |s| - i
  {
    hide *;
    if i < |s| {
      var n, piece := SubStep(m, re, text, s, i);
      SubSubstitutes(m, re, text, s, i + n);
    } else {
      SubEnd(m, re, text, s, i);
    }
  }

  lemma SubEnd(m: C.Matcher, re: Pattern, text: U32, s: U32, i: nat)
    requires i == |s|
    ensures Sub(re, Fixed(text), s, i) == [] && C.Substitute(m, s[i..]) == []
  {
  }

  lemma DescribesAt(m: C.Matcher, re: Pattern, text: U32, s: U32, i: nat)
    requires i < |s| && Describes(m, re, text, s, i)
    ensures m(s[i..]).None? ==> MatchAt(re, s, i, 0, 0) == None
    ensures m(s[i..]).Some? ==>
      var h := m(s[i..]).value;
      0 < h.n <= |s| - i && h.text == text && MatchAt(re, s, i, 0, 0) == Some(Match(i + h.n, 0, 0))
    ensures forall j :: i <= j <= |s| ==> Describes(m, re, text, s, j)
  {
    hide MatchAt;
  }

  /** One turn of re.sub, and one of the scan. */
  lemma SubTurn(re: Pattern, text: U32, s: U32, i: nat)
    requires i < |s|
    ensures var m := MatchAt(re, s, i, 0, 0);
      Sub(re, Fixed(text), s, i) ==
        if m.Some? && m.value.end > i then text + Sub(re, Fixed(text), s, m.value.end)
        else [s[i]] + Sub(re, Fixed(text), s, i + 1)
  {
    hide MatchAt;
  }

  lemma ScanTurn(m: C.Matcher, s: U32, i: nat)
    requires i < |s| && (m(s[i..]).Some? ==> 0 < m(s[i..]).value.n <= |s| - i)
    ensures m(s[i..]).None? ==> C.Substitute(m, s[i..]) == [s[i]] + C.Substitute(m, s[i + 1..])
    ensures m(s[i..]).Some? ==>
      C.Substitute(m, s[i..]) == m(s[i..]).value.text + C.Substitute(m, s[i + m(s[i..]).value.n..])
  {
    var n := if m(s[i..]).Some? then m(s[i..]).value.n else 1;
    assert s[i..][n..] == s[i + n..];
  }

  lemma SubStep(m: C.Matcher, re: Pattern, text: U32, s: U32, i: nat) returns (n: nat, piece: U32)
    requires i < |s| && Describes(m, re, text, s, i)
    ensures 0 < n <= |s| - i && Describes(m, re, text, s, i + n)
    ensures Sub(re, Fixed(text), s, i) == piece + Sub(re, Fixed(text), s, i + n)
    ensures C.Substitute(m, s[i..]) == piece + C.Substitute(m, s[i + n..])
  {
    hide *;
    DescribesAt(m, re, text, s, i);
    SubTurn(re, text, s, i);
    ScanTurn(m, s, i);
    if m(s[i..]).Some? {
      n, piece := m(s[i..]).value.n, text;
    } else {
      n, piece := 1, [s[i]];
    }
  }

  lemma SubHeading(s: U32)
    ensures P.Subst(P.WIKI_HEADING, Fixed([C.SPACE]), s) == C.Substitute(PyHeading, s)
  {
    hide MatchAt, PyHeading, P.WIKI_HEADING, Sub, C.Substitute;
    forall k | 0 <= k < |s|
      ensures MatchAt(P.WIKI_HEADING, s, k, 0, 0) ==
        match PyHeading(s[k..]) { case Some(h) => Some(Match(k + h.n, 0, 0)) case None => None }
      ensures PyHeading(s[k..]).Some? ==> PyHeading(s[k..]).value.text == [C.SPACE]
    {
      MatchHeading(s, k);
      HeadingText(s[k..]);
    }
    SubSubstitutes(PyHeading, P.WIKI_HEADING, [C.SPACE], s, 0);
    assert s[0..] == s;
  }

  lemma HeadingText(s: U32)
    ensures PyHeading(s).Some? ==> PyHeading(s).value.text == [C.SPACE]
  {
    hide Span;
  }

  lemma SubEqRun(s: U32)
    ensures P.Subst(P.EQ_RUN, Fixed([C.SPACE]), s) == C.Substitute(C.EqRun, s)
  {
    hide MatchAt, P.EQ_RUN, Sub, C.Substitute, Span;
    forall k | 0 <= k < |s|
      ensures MatchAt(P.EQ_RUN, s, k, 0, 0) ==
        match C.EqRun(s[k..]) { case Some(h) => Some(Match(k + h.n, 0, 0)) case None => None }
    {
      EqRunItems();
      GreedyAlone(C.IsEq, 2, s, k);
    }
    SubSubstitutes(C.EqRun, P.EQ_RUN, [C.SPACE], s, 0);
    assert s[0..] == s;
  }

  lemma EqRunItems()
    ensures P.EQ_RUN == [Greedy(C.IsEq, 2)] && P.MULTI_SPACE == [Greedy(C.IsSpaceLike, 1)]
  {
  }

  function SpaceRun(s: U32): (h: Option<C.Hit>)
    ensures h.Some? ==> C.Usable(h, s)
  {
    var n := Span(s, C.IsSpaceLike);
    if n > 0 then Some(C.Hit(n, [C.SPACE])) else None
  }

  lemma SubSpaces(s: U32)
    ensures P.Subst(P.MULTI_SPACE, Fixed([C.SPACE]), s) == C.Substitute(SpaceRun, s)
  {
    hide MatchAt, P.MULTI_SPACE, Sub, C.Substitute, Span;
    forall k | 0 <= k < |s|
      ensures MatchAt(P.MULTI_SPACE, s, k, 0, 0) ==
        match SpaceRun(s[k..]) { case Some(h) => Some(Match(k + h.n, 0, 0)) case None => None }
    {
      EqRunItems();
      GreedyAlone(C.IsSpaceLike, 1, s, k);
    }
    SubSubstitutes(SpaceRun, P.MULTI_SPACE, [C.SPACE], s, 0);
    assert s[0..] == s;
  }

  // ----- patterns that need a '[' or a '<' -----

  predicate NoBrackets(s: U32) { forall k :: 0 <= k < |s| ==> s[k] != C.OPEN && s[k] != C.LESS }

  lemma EditNeedsBracket(s: U32, i: nat)
    requires i < |s| && s[i] != C.OPEN
    ensures MatchAt(P.WIKI_EDIT, s, i, 0, 0).None?
  {
    var re := P.WIKI_EDIT;
    assert re[0] == One(P.IsOpen);
    hide P.WIKI_EDIT;
  }

  lemma LinkNeedsBracket(s: U32, i: nat)
    requires i < |s| && s[i] != C.OPEN
    ensures MatchAt(P.WIKI_LINK, s, i, 0, 0).None?
  {
    var re := P.WIKI_LINK;
    assert re[0] == One(P.IsOpen);
    hide P.WIKI_LINK;
  }

  lemma RefNeedsBracket(s: U32, i: nat)
    requires i < |s| && s[i] != C.OPEN && s[i] != C.LESS
    ensures MatchAt(P.WIKI_REF, s, i, 0, 0).None?
  {
    RefItems();
    hide P.WIKI_REF, P.NUMBER_REF, P.TAG_REF, MatchAt;
    MatchEither(P.NUMBER_REF, P.TAG_REF, [], s, i);
    assert P.NUMBER_REF + [] == P.NUMBER_REF && P.TAG_REF + [] == P.TAG_REF;
    MatchOne(P.IsOpen, P.NUMBER_REF[1..], s, i);
    MatchOne(P.IsLess, P.TAG_REF[1..], s, i);
  }

  lemma RefItems()
    ensures P.WIKI_REF == [Either(P.NUMBER_REF, P.TAG_REF)] + []
    ensures P.NUMBER_REF != [] && P.NUMBER_REF == [One(P.IsOpen)] + P.NUMBER_REF[1..]
    ensures P.TAG_REF != [] && P.TAG_REF == [One(P.IsLess)] + P.TAG_REF[1..]
  {
  }

  lemma SubWithoutBrackets(s: U32)
    requires NoBrackets(s)
    ensures P.Subst(P.WIKI_EDIT, Fixed([]), s) == s
    ensures P.Subst(P.WIKI_LINK, Group1, s) == s
    ensures P.Subst(P.WIKI_REF, Fixed([]), s) == s
  {
    hide MatchAt, Sub, P.WIKI_EDIT, P.WIKI_LINK, P.WIKI_REF;
    forall k | 0 <= k < |s|
      ensures MatchAt(P.WIKI_EDIT, s, k, 0, 0).None?
      ensures MatchAt(P.WIKI_LINK, s, k, 0, 0).None?
      ensures MatchAt(P.WIKI_REF, s, k, 0, 0).None?
    {
      EditNeedsBracket(s, k);
      LinkNeedsBracket(s, k);
      RefNeedsBracket(s, k);
    }
    SubNoMatch(P.WIKI_EDIT, Fixed([]), s, 0);
    SubNoMatch(P.WIKI_LINK, Group1, s, 0);
    SubNoMatch(P.WIKI_REF, Fixed([]), s, 0);
    assert s[0..] == s;
  }
}
