/** The link pass of the two cleaners: what the pattern matches, and on which texts it does what the scanner does. */
module LinkPass {
  import opened Text
  import opened PyRegex
  import opened PatternMeaning
  import C = ContextClip
  import P = PyContext

  // ----- the pattern -----

  const LABEL: Pattern := [Greedy(P.NotPipeOrClose, 1), One(P.IsPipe)]
  const CLOSING: Pattern := [GroupEnd] + ([One(P.IsClose)] + ([One(P.IsClose)] + []))
  const BODY: Pattern := [GroupStart] + ([Greedy(C.NotClose, 1)] + CLOSING)

  lemma LinkItems()
    ensures P.WIKI_LINK == [One(P.IsOpen)] + ([One(P.IsOpen)] + ([Either(LABEL, [])] + BODY))
    ensures LABEL + BODY == [Greedy(P.NotPipeOrClose, 1)] + ([One(P.IsPipe)] + BODY) && [] + BODY == BODY
  {
  }

  /** A closing pair of brackets at j. */
  predicate ClosesAt(s: U32, j: nat) { j + 1 < |s| && s[j] == C.CLOSE && s[j + 1] == C.CLOSE }

  /** The text from k to the next bracket, when it is not empty and a pair of brackets closes it. */
  function Body(s: U32, k: nat): (h: Option<C.Hit>)
    requires k <= |s|
    ensures h.Some? ==> k < h.value.n <= |s|
  {
    var j := k + Span(s[k..], C.NotClose);
    if j > k && ClosesAt(s, j) then Some(C.Hit(j + 2, s[k..j])) else None
  }

  lemma MatchGroupStart(rest: Pattern, s: U32, i: nat)
    requires i <= |s|
    ensures MatchAt([GroupStart] + rest, s, i, 0, 0) == MatchAt(rest, s, i, i, 0)
  {
    assert ([GroupStart] + rest)[1..] == rest;
  }

  lemma MatchRun(p: Class, rest: Pattern, s: U32, i: nat, from: nat)
    requires i <= |s|
    ensures MatchAt([Greedy(p, 1)] + rest, s, i, from, 0) == Shrink(rest, s, i, Span(s[i..], p), 1, from, 0)
  {
    assert ([Greedy(p, 1)] + rest)[1..] == rest;
    hide Span, Shrink;
  }

  lemma MatchOneIn(p: Class, rest: Pattern, s: U32, i: nat, from: nat, to: nat)
    requires i <= |s|
    ensures MatchAt([One(p)] + rest, s, i, from, to) ==
      if i < |s| && p(s[i]) then MatchAt(rest, s, i + 1, from, to) else None
  {
    assert ([One(p)] + rest)[1..] == rest;
  }

  lemma MatchGroupEnd(rest: Pattern, s: U32, i: nat, from: nat)
    requires i <= |s|
    ensures MatchAt([GroupEnd] + rest, s, i, from, 0) == MatchAt(rest, s, i, from, i)
  {
    assert ([GroupEnd] + rest)[1..] == rest;
  }

  lemma MatchClosing(s: U32, j: nat, from: nat)
    requires j <= |s|
    ensures MatchAt(CLOSING, s, j, from, 0) == if ClosesAt(s, j) then Some(Match(j + 2, from, j)) else None
  {
    hide MatchAt;
    var one := [One(P.IsClose)] + [];
    MatchGroupEnd([One(P.IsClose)] + one, s, j, from);
    MatchOneIn(P.IsClose, one, s, j, from, j);
    if j + 1 <= |s| {
      MatchOneIn(P.IsClose, [], s, j + 1, from, j);
    }
    if j + 2 <= |s| {
      MatchNil(s, j + 2, from, j);
    }
  }

  lemma SpanInside(s: U32, i: nat, p: Class)
    requires i <= |s|
    ensures var n := Span(s[i..], p);
      (forall k :: i <= k < i + n ==> p(s[k])) && (i + n < |s| ==> !p(s[i + n]))
  {
    var n := Span(s[i..], p);
    forall k | i <= k < i + n
      ensures p(s[k])
    {
      assert p(s[i..][k - i]);
    }
    assert i + n < |s| ==> s[i..][n] == s[i + n];
  }

  /** Only the full run up to the next bracket can be followed by one. */
  lemma MatchBody(s: U32, i: nat)
    requires i <= |s|
    ensures MatchAt(BODY, s, i, 0, 0) ==
      match Body(s, i) { case Some(h) => Some(Match(h.n, i, h.n - 2)) case None => None }
  {
    hide MatchAt, Shrink, Span, CLOSING;
    var n := Span(s[i..], C.NotClose);
    MatchGroupStart([Greedy(C.NotClose, 1)] + CLOSING, s, i);
    MatchRun(C.NotClose, CLOSING, s, i, i);
    SpanInside(s, i, C.NotClose);
    forall k | i <= k <= i + n
      ensures MatchAt(CLOSING, s, k, i, 0) == if k == i + n && ClosesAt(s, k) then Some(Match(k + 2, i, k)) else None
    {
      MatchClosing(s, k, i);
    }
    if n >= 1 && ClosesAt(s, i + n) {
      ShrinkTop(CLOSING, s, i, n, i);
    } else {
      ShrinkNone(CLOSING, s, i, n, 1, i, 0);
    }
  }

  lemma ShrinkTop(rest: Pattern, s: U32, i: nat, n: nat, from: nat)
    requires i + n <= |s| && n >= 1 && MatchAt(rest, s, i + n, from, 0).Some?
    ensures Shrink(rest, s, i, n, 1, from, 0) == MatchAt(rest, s, i + n, from, 0)
  {
    hide MatchAt;
  }

  /** The piece before the first pipe, and the body behind it. */
  lemma MatchLabel(s: U32, i: nat)
    requires i <= |s|
    ensures var n := Span(s[i..], P.NotPipeOrClose);
      MatchAt(LABEL + BODY, s, i, 0, 0) ==
        if n >= 1 && i + n < |s| && s[i + n] == C.PIPE then MatchAt(BODY, s, i + n + 1, 0, 0) else None
  {
    hide MatchAt, Shrink, Span, BODY;
    var n := Span(s[i..], P.NotPipeOrClose);
    var rest := [One(P.IsPipe)] + BODY;
    LinkItems();
    MatchGreedy(P.NotPipeOrClose, 1, rest, s, i);
    SpanInside(s, i, P.NotPipeOrClose);
    forall k | i <= k <= i + n
      ensures MatchAt(rest, s, k, 0, 0) ==
        if k == i + n && k < |s| && s[k] == C.PIPE then MatchAt(BODY, s, k + 1, 0, 0) else None
    {
      MatchOne(P.IsPipe, BODY, s, k);
    }
    if n >= 1 && MatchAt(rest, s, i + n, 0, 0).Some? {
      ShrinkFirst(rest, s, i, n, 1);
    } else {
      ShrinkNone(rest, s, i, n, 1, 0, 0);
    }
  }

  /** Behind two brackets: the label and its body if they match, else the body alone. */
  function LinkBody(s: U32, k: nat): (h: Option<C.Hit>)
    requires k <= |s|
    ensures h.Some? ==> k < h.value.n <= |s|
  {
    var pipe := k + Span(s[k..], P.NotPipeOrClose);
    if k < pipe < |s| && s[pipe] == C.PIPE && Body(s, pipe + 1).Some? then Body(s, pipe + 1) else Body(s, k)
  }

  /** The link pattern as a matcher: an empty label behind a pipe, or an empty piece before it, is no label. */
  function PyLink(s: U32): (h: Option<C.Hit>)
    ensures h.Some? ==> C.Usable(h, s)
  {
    if |s| < 2 || s[0] != C.OPEN || s[1] != C.OPEN then None else LinkBody(s, 2)
  }

  /** The match that a hit of the group's text stands for. */
  function AsMatch(h: Option<C.Hit>): Option<Match> {
    if h.None? || h.value.n < 2 + |h.value.text| then None
    else Some(Match(h.value.n, h.value.n - 2 - |h.value.text|, h.value.n - 2))
  }

  lemma BodyGroup(s: U32, k: nat)
    requires k <= |s|
    ensures Body(s, k).Some? ==>
      var h := Body(s, k).value; h.n == k + |h.text| + 2 && h.n <= |s| && s[k..h.n - 2] == h.text
  {
    hide Span;
  }

  lemma MatchLinkBody(s: U32, k: nat)
    requires k <= |s|
    ensures MatchAt([Either(LABEL, [])] + BODY, s, k, 0, 0) == AsMatch(LinkBody(s, k))
    ensures LinkBody(s, k).Some? ==>
      var h := LinkBody(s, k).value; k + |h.text| + 2 <= h.n <= |s| && s[h.n - 2 - |h.text|..h.n - 2] == h.text
  {
    hide MatchAt, Span, BODY, LABEL, Body;
    LinkItems();
    MatchEither(LABEL, [], BODY, s, k);
    MatchLabel(s, k);
    MatchBody(s, k);
    BodyGroup(s, k);
    var pipe := k + Span(s[k..], P.NotPipeOrClose);
    if pipe < |s| {
      MatchBody(s, pipe + 1);
      BodyGroup(s, pipe + 1);
    }
  }

  lemma BodyFrom(s: U32, i: nat, k: nat)
    requires i <= k <= |s|
    ensures Body(s[i..], k - i) == Earlier(Body(s, k), i)
  {
    hide Span;
    assert s[i..][k - i..] == s[k..];
    var j := k + Span(s[k..], C.NotClose);
    assert s[i..][k - i..j - i] == s[k..j];
  }

  /** The same hit, counted from i on. */
  function Earlier(h: Option<C.Hit>, i: nat): Option<C.Hit> {
    if h.Some? && i <= h.value.n then Some(C.Hit(h.value.n - i, h.value.text)) else None
  }

  lemma LinkBodyFrom(s: U32, i: nat, k: nat)
    requires i <= k <= |s|
    ensures LinkBody(s[i..], k - i) == Earlier(LinkBody(s, k), i)
  {
    hide Span, Body;
    assert s[i..][k - i..] == s[k..];
    BodyFrom(s, i, k);
    var pipe := k + Span(s[k..], P.NotPipeOrClose);
    if pipe < |s| {
      BodyFrom(s, i, pipe + 1);
    }
  }

  /** A backtracking match of the link pattern at any position, with its group. */
  lemma MatchLink(s: U32, i: nat)
    requires i < |s|
    ensures var h := PyLink(s[i..]);
      if h.Some? then
        && |h.value.text| + 2 <= h.value.n <= |s| - i
        && MatchAt(P.WIKI_LINK, s, i, 0, 0) ==
             Some(Match(i + h.value.n, i + h.value.n - 2 - |h.value.text|, i + h.value.n - 2))
        && s[i + h.value.n - 2 - |h.value.text|..i + h.value.n - 2] == h.value.text
      else MatchAt(P.WIKI_LINK, s, i, 0, 0) == None
  {
    hide MatchAt, BODY, LABEL, P.WIKI_LINK, LinkBody;
    LinkItems();
    MatchOne(P.IsOpen, [One(P.IsOpen)] + ([Either(LABEL, [])] + BODY), s, i);
    MatchOne(P.IsOpen, [Either(LABEL, [])] + BODY, s, i + 1);
    if i + 1 < |s| && s[i] == C.OPEN && s[i + 1] == C.OPEN {
      MatchLinkBody(s, i + 2);
      LinkBodyFrom(s, i, i + 2);
    }
  }

  lemma HitTurn(m: C.Matcher, re: Pattern, s: U32, i: nat, h: C.Hit, from: nat, to: nat)
    requires i < |s| && m(s[i..]) == Some(h) && 0 < h.n <= |s| - i
    requires from <= to <= |s| && s[from..to] == h.text && MatchAt(re, s, i, 0, 0) == Some(Match(i + h.n, from, to))
    ensures Sub(re, Group1, s, i) == h.text + Sub(re, Group1, s, i + h.n)
    ensures C.Substitute(m, s[i..]) == h.text + C.Substitute(m, s[i + h.n..])
  {
    hide *;
    GroupTurn(re, s, i);
    ScanTurn(m, s, i);
  }

  lemma CopyTurn(m: C.Matcher, re: Pattern, s: U32, i: nat)
    requires i < |s| && m(s[i..]) == None && MatchAt(re, s, i, 0, 0) == None
    ensures Sub(re, Group1, s, i) == [s[i]] + Sub(re, Group1, s, i + 1)
    ensures C.Substitute(m, s[i..]) == [s[i]] + C.Substitute(m, s[i + 1..])
  {
    hide *;
    GroupTurn(re, s, i);
    ScanTurn(m, s, i);
  }

  /** One turn with the link pattern: n characters become the piece. */
  lemma LinkTurn(s: U32, i: nat) returns (n: nat, piece: U32)
    requires i < |s|
    ensures 0 < n <= |s| - i
    ensures Sub(P.WIKI_LINK, Group1, s, i) == piece + Sub(P.WIKI_LINK, Group1, s, i + n)
    ensures C.Substitute(PyLink, s[i..]) == piece + C.Substitute(PyLink, s[i + n..])
  {
    hide *;
    MatchLink(s, i);
    if PyLink(s[i..]).Some? {
      var h := PyLink(s[i..]).value;
      n, piece := h.n, h.text;
      HitTurn(PyLink, P.WIKI_LINK, s, i, h, i + h.n - 2 - |h.text|, i + h.n - 2);
    } else {
      n, piece := 1, [s[i]];
      CopyTurn(PyLink, P.WIKI_LINK, s, i);
    }
  }

  /** `re.sub` with the link pattern and its group is the substitution by PyLink. */
  lemma {:induction false} SubLinkFrom(s: U32, i: nat)
    requires i <= |s|
    ensures Sub(P.WIKI_LINK, Group1, s, i) == C.Substitute(PyLink, s[i..])
    decreases |s| - i
  {
    hide *;
    if i < |s| {
      var n, piece := LinkTurn(s, i);
      SubLinkFrom(s, i + n);
    } else {
      NothingLeft(P.WIKI_LINK, s);
    }
  }

  /** One turn of re.sub with the group. */
  lemma GroupTurn(re: Pattern, s: U32, i: nat)
    requires i < |s|
    ensures var m := MatchAt(re, s, i, 0, 0);
      && (m.None? ==> Sub(re, Group1, s, i) == [s[i]] + Sub(re, Group1, s, i + 1))
      && (m.Some? && i < m.value.end && m.value.groupFrom <= m.value.groupTo <= |s| ==>
           Sub(re, Group1, s, i) == s[m.value.groupFrom..m.value.groupTo] + Sub(re, Group1, s, m.value.end))
  {
    hide MatchAt;
  }

  lemma NothingLeft(re: Pattern, s: U32)
    ensures Sub(re, Group1, s, |s|) == [] && C.Substitute(PyLink, s[|s|..]) == []
  {
  }

  lemma SubLink(s: U32)
    ensures P.Subst(P.WIKI_LINK, Group1, s) == C.Substitute(PyLink, s)
  {
    SubLinkFrom(s, 0);
    assert s[0..] == s;
    hide Sub, C.Substitute, P.WIKI_LINK;
  }

  // ----- the scanner -----

  /** The scanner takes a link whose label is empty or begins with a pipe. */
  predicate OddAt(s: U32) {
    C.WikiLink(s).Some? && |s| > 2 && (s[2] == C.PIPE || C.WikiLink(s).value.text == [])
  }

  lemma ScannerIs(s: U32)
    requires |s| >= 2 && s[0] == C.OPEN && s[1] == C.OPEN
    ensures var j := 2 + Span(s[2..], C.NotClose); var pipe := 2 + Span(s[2..], P.NotPipeOrClose);
      && 2 <= pipe <= j <= |s| && (pipe < j ==> s[pipe] == C.PIPE) && (pipe == j < |s| ==> s[pipe] == C.CLOSE)
      && (pipe < j ==> pipe + 1 + Span(s[pipe + 1..], C.NotClose) == j)
      && C.WikiLink(s) ==
           if ClosesAt(s, j) then Some(C.Hit(j + 2, if pipe < j then s[pipe + 1..j] else s[2..j])) else None
  {
    hide C.WikiLink, Span;
    var j, pipe := 2 + Span(s[2..], C.NotClose), 2 + Span(s[2..], P.NotPipeOrClose);
    MarksIn(s, j, pipe);
    hide *;
    C.WikiLinkAt(s, 0, j, pipe, if pipe < j then pipe + 1 else 2);
    ClosesIs(s, j);
    assert s[0..] == s && j - 0 == j;
    if pipe < j {
      SpanFrom(s, 0, pipe + 1, j, |s|, C.NotClose);
      assert s[0..][pipe + 1 - 0..] == s[pipe + 1..];
    }
  }

  lemma ClosesIs(s: U32, j: nat)
    ensures ClosesAt(s, j) <==> j + 1 < |s| && s[j] == C.CLOSE && s[j + 1] == C.CLOSE
  {
  }

  /** The first pipe or bracket and the first bracket, character by character. */
  lemma MarksIn(s: U32, j: nat, pipe: nat)
    requires |s| >= 2 && j == 2 + Span(s[2..], C.NotClose) && pipe == 2 + Span(s[2..], P.NotPipeOrClose)
    ensures 2 <= pipe <= j <= |s| && (pipe < j ==> s[pipe] == C.PIPE && !C.NotPipe(s[pipe]))
    ensures pipe == j < |s| ==> s[pipe] == C.CLOSE
    ensures forall k :: 2 <= k < j ==> C.NotClose(s[k])
    ensures j < |s| ==> !C.NotClose(s[j]) && s[j] == C.CLOSE
    ensures forall k :: 2 <= k < pipe ==> C.NotPipe(s[k])
  {
    hide Span;
    SpanInside(s, 2, C.NotClose);
    SpanInside(s, 2, P.NotPipeOrClose);
    assert pipe <= j;
  }

  lemma BodyIs(s: U32, k: nat)
    requires k <= |s|
    ensures var j := k + Span(s[k..], C.NotClose);
      j <= |s| && Body(s, k) == if j > k && ClosesAt(s, j) then Some(C.Hit(j + 2, s[k..j])) else None
  {
    hide Span, ClosesAt;
  }

  lemma PyLinkIs(s: U32)
    requires |s| >= 2 && s[0] == C.OPEN && s[1] == C.OPEN
    ensures var pipe := 2 + Span(s[2..], P.NotPipeOrClose);
      PyLink(s) ==
        if 2 < pipe < |s| && s[pipe] == C.PIPE && Body(s, pipe + 1).Some? then Body(s, pipe + 1) else Body(s, 2)
  {
    hide Span, Body;
  }

  lemma PatternIs(s: U32)
    requires |s| >= 2 && s[0] == C.OPEN && s[1] == C.OPEN
    ensures var j := 2 + Span(s[2..], C.NotClose); var pipe := 2 + Span(s[2..], P.NotPipeOrClose);
      && j <= |s| && pipe <= j
      && PyLink(s) ==
           if j == 2 || !ClosesAt(s, j) then None
           else Some(C.Hit(j + 2, if 2 < pipe && pipe + 1 < j then s[pipe + 1..j] else s[2..j]))
  {
    hide *;
    ScannerIs(s);
    PyLinkIs(s);
    BodyIs(s, 2);
    var pipe := 2 + Span(s[2..], P.NotPipeOrClose);
    if pipe < 2 + Span(s[2..], C.NotClose) {
      BodyIs(s, pipe + 1);
    } else if pipe < |s| {
      OtherMark(s, pipe);
    }
  }

  lemma OtherMark(s: U32, k: nat)
    requires k < |s| && s[k] == C.CLOSE
    ensures s[k] != C.PIPE
  {
  }

  /** The two matchers at one place: a label is cut at its first pipe by both, unless it is odd. */
  lemma LinkHere(s: U32)
    ensures !OddAt(s) ==> PyLink(s) == C.WikiLink(s)
    ensures OddAt(s) && s[2] == C.CLOSE ==> PyLink(s) == None && C.WikiLink(s) == Some(C.Hit(4, [])) && ClosesAt(s, 2)
    ensures OddAt(s) && s[2] != C.CLOSE ==>
      PyLink(s).Some? && PyLink(s).value.n == C.WikiLink(s).value.n
      && |PyLink(s).value.text| > |C.WikiLink(s).value.text|
  {
    if |s| >= 2 && s[0] == C.OPEN && s[1] == C.OPEN {
      ScannerIs(s);
      PatternIs(s);
      assert |s| > 2 ==> s[2..][0] == s[2];
      var j, pipe := 2 + Span(s[2..], C.NotClose), 2 + Span(s[2..], P.NotPipeOrClose);
      assert pipe == 2 && 2 < j ==> s[2] == C.PIPE;
      assert s[2..j] == [] <==> j == 2;
      hide Span, C.WikiLink, PyLink;
    } else {
      hide Span;
    }
  }

  // ----- whole texts -----

  /** The scan comes to an odd link. */
  predicate MeetsOdd(s: U32)
    decreases |s|
  {
    if s == [] then false
    else
      var h := C.WikiLink(s);
      if h.None? then MeetsOdd(s[1..]) else OddAt(s) || MeetsOdd(s[h.value.n..])
  }

  lemma ScanStep(m: C.Matcher, s: U32)
    requires s != [] && (m(s).Some? ==> C.Usable(m(s), s))
    ensures C.Substitute(m, s) ==
      if m(s).Some? then m(s).value.text + C.Substitute(m, s[m(s).value.n..]) else [s[0]] + C.Substitute(m, s[1..])
  {
  }

  lemma MeetsStep(s: U32)
    requires s != []
    ensures var h := C.WikiLink(s);
      MeetsOdd(s) <==> if h.None? then MeetsOdd(s[1..]) else OddAt(s) || MeetsOdd(s[h.value.n..])
    ensures C.WikiLink(s).Some? ==> |s| > 2 && C.Usable(C.WikiLink(s), s)
    ensures PyLink(s).Some? ==> C.Usable(PyLink(s), s)
    ensures C.WikiLink(s).None? ==> !OddAt(s)
  {
    hide Span;
  }

  lemma NoLinkHere(s: U32)
    requires |s| < 2 || s[0] != C.OPEN || s[1] != C.OPEN
    ensures PyLink(s) == None
  {
  }

  /** Python copies an empty link character by character and is then where the scanner is. */
  lemma EmptyLinkCopied(s: U32)
    requires |s| >= 4 && s[0] == C.OPEN && s[1] == C.OPEN && ClosesAt(s, 2) && PyLink(s) == None
    ensures C.Substitute(PyLink, s) == s[..4] + C.Substitute(PyLink, s[4..])
  {
    hide C.Substitute, PyLink;
    NoLinkHere(s[1..]);
    NoLinkHere(s[2..]);
    NoLinkHere(s[3..]);
    ScanStep(PyLink, s);
    ScanStep(PyLink, s[1..]);
    ScanStep(PyLink, s[2..]);
    ScanStep(PyLink, s[3..]);
    assert s[1..][1..] == s[2..] && s[2..][1..] == s[3..] && s[3..][1..] == s[4..];
    FourChars(s, C.Substitute(PyLink, s[4..]));
  }

  lemma FourChars(s: U32, rest: U32)
    requires |s| >= 4
    ensures [s[0]] + ([s[1..][0]] + ([s[2..][0]] + ([s[3..][0]] + rest))) == s[..4] + rest
  {
  }

  /** The scanner never leaves more than the pattern, and leaves less as soon as it meets an odd link. */
  lemma {:induction false} ScannerLeavesLess(s: U32)
    ensures !MeetsOdd(s) ==> C.Substitute(PyLink, s) == C.Substitute(C.WikiLink, s)
    ensures |C.Substitute(C.WikiLink, s)| <= |C.Substitute(PyLink, s)|
    ensures MeetsOdd(s) ==> |C.Substitute(C.WikiLink, s)| < |C.Substitute(PyLink, s)|
    decreases |s|
  {
    if s != [] {
      MeetsStep(s);
      LinkHere(s);
      hide MeetsOdd, OddAt, PyLink, C.WikiLink, C.Substitute;
      ScanStep(C.WikiLink, s);
      ScanStep(PyLink, s);
      var h := C.WikiLink(s);
      ScannerLeavesLess(s[if h.Some? then h.value.n else 1..]);
      if OddAt(s) && s[2] == C.CLOSE {
        OddIsLink(s);
        EmptyLinkCopied(s);
      }
    }
  }

  lemma OddIsLink(s: U32)
    requires OddAt(s)
    ensures |s| >= 4 && s[0] == C.OPEN && s[1] == C.OPEN
  {
    hide Span;
  }

  /** The two link passes agree exactly on the texts in which the scan meets no empty label and no leading pipe. */
  lemma LinkPassesAgree(s: U32)
    ensures P.Subst(P.WIKI_LINK, Group1, s) == C.Substitute(C.WikiLink, s) <==> !MeetsOdd(s)
  {
    hide *;
    SubLink(s);
    ScannerLeavesLess(s);
  }
}
