/** What the hook is asked, stated by the segments of the request: when, for which reading, surfaces and context. */
module HookInput {
  import opened Text
  import opened Utf8
  import opened Reorder
  import opened RerankRewriter
  import C = ContextClip
  import D = Degrade
  import G = Guard
  import N = ReadingShape
  import S = CleanShape

  // ----- the context -----

  /** t is the text of the first candidate. */
  predicate IsTop(s: SegmentView, t: U32) {
    if s.candidates == [] then t == [] else s.candidates[0].value == Encode(t)
  }

  ghost predicate AreTops(segments: seq<SegmentView>, tops: seq<U32>) {
    |tops| == |segments| && forall k :: 0 <= k < |segments| ==> IsTop(segments[k], tops[k])
  }

  function Joined(texts: seq<U32>): U32 {
    if texts == [] then [] else Joined(texts[..|texts| - 1]) + texts[|texts| - 1]
  }

  /**
   What stands before the segments: the text of the application, or what was converted before when the
   application gives none.
   */
  ghost predicate StandsBefore(i: Input, before: U32, past: seq<U32>) {
    if i.preceding != [] then i.preceding == Encode(before) else AreTops(i.history, past) && before == Joined(past)
  }

  /** The last n characters. */
  function LastChars(s: U32, n: int): U32 {
    if n <= 0 then [] else if |s| <= n then s else s[|s| - n..]
  }

  /** The length of the context at a tier. */
  function CharsAt(cfg: Config, tier: int): int {
    if tier >= 3 then 0 else if tier == 2 then 20 else cfg.contextChars
  }

  /** The number of surfaces at a tier. */
  function CapAt(cfg: Config, tier: int): nat {
    if tier >= 1 && cfg.candCap > 15 then 15 else cfg.candCap
  }

  lemma {:induction false} EncodeJoin(a: U32, b: U32)
    ensures Encode(a + b) == Encode(a) + Encode(b)
  {
    if a == [] {
      assert a + b == b;
    } else {
      assert (a + b)[1..] == a[1..] + b;
      EncodeJoin(a[1..], b);
      hide EncodeOne;
    }
  }

  lemma {:induction false} TopsJoined(segments: seq<SegmentView>, tops: seq<U32>)
    requires AreTops(segments, tops)
    ensures Tops(segments) == Encode(Joined(tops))
    decreases |tops|
  {
    hide Encode, Tops;
    if tops == [] {
      NoTops();
    } else {
      var m := |tops| - 1;
      TopsJoined(segments[..m], tops[..m]);
      TopsAppend(segments[..m], segments[m]);
      assert segments == segments[..m] + [segments[m]];
      EncodeJoin(Joined(tops[..m]), tops[m]);
      NoTops();
      assert IsTop(segments[m], tops[m]);
      assert Tops(segments[..m]) + [] == Tops(segments[..m]);
    }
  }

  lemma NoTops()
    ensures Tops([]) == [] && Encode([]) == []
  {
  }

  lemma HistoryIs(i: Input, before: U32, past: seq<U32>, tops: seq<U32>)
    requires i.conversion != [] && StandsBefore(i, before, past)
    requires AreTops(i.conversion[..|i.conversion| - 1], tops)
    ensures Decode(History(i)) == before + Joined(tops)
  {
    TopsJoined(i.conversion[..|i.conversion| - 1], tops);
    if i.preceding == [] {
      TopsJoined(i.history, past);
    }
    EncodeJoin(before, Joined(tops));
    DecodeEncode(before + Joined(tops));
    hide Encode, Decode, Tops, AreTops;
  }

  /** What the cleaner leaves of the text at a tier. */
  function Cleaned(cfg: Config, tier: int, text: U32): U32 {
    var n := CharsAt(cfg, tier);
    if n <= 0 then [] else C.CleanU32(text, n)
  }

  lemma CharsAtTier(cfg: Config, d: D.State)
    ensures EffectiveContextChars(cfg, d) == CharsAt(cfg, d.tier) && EffectiveCandCap(cfg, d) == CapAt(cfg, d.tier)
  {
  }

  lemma ContextPrevIs(cfg: Config, d: D.State, i: Input)
    requires i.conversion != []
    ensures var n := EffectiveContextChars(cfg, d);
      ContextPrev(cfg, d, i) == if n <= 0 then [] else Encode(C.CleanU32(Decode(History(i)), n))
  {
    hide History, EffectiveContextChars, Decode, Encode, C.CleanU32;
  }

  lemma CleanedIs(cfg: Config, tier: int, text: U32)
    ensures var n := CharsAt(cfg, tier); Cleaned(cfg, tier, text) == if n <= 0 then [] else C.CleanU32(text, n)
  {
    hide C.CleanU32, CharsAt;
  }

  /**
   The context is cleaned out of the text that stands before the last segment: first what the application
   or the history gives, then the tops of the other segments in their order.
   */
  lemma ContextSent(cfg: Config, d: D.State, i: Input, before: U32, past: seq<U32>, tops: seq<U32>)
    requires i.conversion != [] && StandsBefore(i, before, past)
    requires AreTops(i.conversion[..|i.conversion| - 1], tops)
    ensures ContextPrev(cfg, d, i) == Encode(Cleaned(cfg, d.tier, before + Joined(tops)))
  {
    hide *;
    HistoryIs(i, before, past, tops);
    ContextPrevIs(cfg, d, i);
    CharsAtTier(cfg, d);
    CleanedIs(cfg, d.tier, before + Joined(tops));
    NoTops();
  }

  /** Of a tidy text the cleaner leaves the last characters. */
  lemma TidyCleaned(cfg: Config, tier: int, text: U32)
    requires S.Tidy(text) && All(text, S.Unmarked)
    ensures Cleaned(cfg, tier, text) == LastChars(C.DropLead(text), CharsAt(cfg, tier))
  {
    hide *;
    CleanedIs(cfg, tier, text);
    S.CleanTidyCut(text, CharsAt(cfg, tier));
    LastCharsIs(C.DropLead(text), CharsAt(cfg, tier));
  }

  lemma LastCharsIs(u: U32, n: int)
    ensures LastChars(u, n) == if n <= 0 then [] else if n < |u| then u[|u| - n..] else u
  {
  }

  /** So the segment before the last one stands at the end of the context. */
  lemma ContextEndsWithTop(cfg: Config, d: D.State, i: Input, before: U32, past: seq<U32>, tops: seq<U32>)
    requires |i.conversion| > 1 && StandsBefore(i, before, past)
    requires AreTops(i.conversion[..|i.conversion| - 1], tops)
    requires var text := before + Joined(tops); S.Tidy(text) && All(text, S.Unmarked)
    requires CharsAt(cfg, d.tier) > 0 && tops[|tops| - 1] != [] && tops[|tops| - 1][0] != C.SPACE
    ensures var top := LastChars(tops[|tops| - 1], CharsAt(cfg, d.tier));
      exists lead: U32 :: ContextPrev(cfg, d, i) == Encode(lead + top)
  {
    assert tops != [];
    hide *;
    ContextSent(cfg, d, i, before, past, tops);
    TidyCleaned(cfg, d.tier, before + Joined(tops));
    JoinedLast(tops);
    Regrouped(before, Joined(tops[..|tops| - 1]), tops[|tops| - 1]);
    EndOf(before + Joined(tops[..|tops| - 1]), tops[|tops| - 1], CharsAt(cfg, d.tier));
  }

  lemma JoinedLast(tops: seq<U32>)
    requires tops != []
    ensures Joined(tops) == Joined(tops[..|tops| - 1]) + tops[|tops| - 1]
  {
  }

  lemma Regrouped(a: U32, b: U32, c: U32)
    ensures a + (b + c) == a + b + c
  {
  }

  lemma EndOf(a: U32, t: U32, n: int)
    requires n > 0 && t != [] && t[0] != C.SPACE
    ensures exists lead: U32 :: LastChars(C.DropLead(a + t), n) == lead + LastChars(t, n)
  {
    var b := C.DropLead(a);
    LeadDropped(a, t);
    hide C.DropLead;
    LastOfSum(b, t, n);
  }

  lemma LeadDropped(a: U32, t: U32)
    requires t != [] && t[0] != C.SPACE
    ensures C.DropLead(a + t) == C.DropLead(a) + t
  {
    if a == [] {
      assert a + t == t;
    } else {
      assert (a + t)[1..] == a[1..] + t;
    }
  }

  lemma LastOfSum(b: U32, t: U32, n: int)
    requires n > 0
    ensures exists lead: U32 :: LastChars(b + t, n) == lead + LastChars(t, n)
  {
    if |t| >= n {
      assert (b + t)[|b + t| - n..] == t[|t| - n..];
      assert LastChars(b + t, n) == [] + LastChars(t, n);
    } else if |b + t| <= n {
      assert LastChars(b + t, n) == b + LastChars(t, n);
    } else {
      var lead := b[|b + t| - n..];
      assert (b + t)[|b + t| - n..] == lead + t;
      assert LastChars(b + t, n) == lead + LastChars(t, n);
    }
  }

  // ----- the reading and the surfaces -----

  lemma ReadingSent(i: Input, key: U32)
    requires i.conversion != [] && i.conversion[|i.conversion| - 1].key == Encode(key)
    requires forall k :: 0 <= k < |key| ==> !N.IsVariant(key[k])
    ensures Reading(i) == Encode(key)
  {
    N.StaysExactly(key);
    NormalizedReading(i);
    hide *;
  }

  lemma NormalizedReading(i: Input)
    requires i.conversion != []
    ensures Reading(i) == N.Normalized(i.conversion[|i.conversion| - 1].key)
  {
    hide Encode, Decode, Map;
  }

  /** The first surfaces of the last segment. */
  lemma SurfacesSent(cfg: Config, d: D.State, i: Input)
    requires i.conversion != []
    ensures var nbest, c := NBest(cfg, d, i), i.conversion[|i.conversion| - 1].candidates;
      && |nbest| == (if CapAt(cfg, d.tier) < |c| then CapAt(cfg, d.tier) else |c|)
      && forall k :: 0 <= k < |nbest| ==> nbest[k] == c[k].value
  {
    CharsAtTier(cfg, d);
    hide EffectiveCandCap, CapAt;
  }

  // ----- the whole call -----

  /** The request passes the guard: see LetThroughExactly. */
  ghost predicate Passes(g: G.Mode, words: seq<U32>, key: U32, context: U32) {
    g.enabled ==>
      |key| >= 3 && (exists k :: 0 <= k < |context| && G.IsLinguistic(context[k])) && (g.strict ==> key in words)
  }

  lemma GuardPasses(g: G.Mode, words: seq<U32>, key: U32, context: U32)
    requires G.EligibleTable(words, g.table) && G.NulFree(key)
    ensures G.SkipReason(g, Encode(key), Encode(context)) == G.NoSkip <==> Passes(g, words, key, context)
  {
    if g.enabled {
      G.LetThroughExactly(words, g, key, context);
    }
    hide Encode, G.EligibleTable, G.Cps;
  }

  /** When the hook is asked, and what: for any reading in its normal form and any text before it. */
  lemma HookIsAsked(cfg: Config, d: D.State, i: Input, words: seq<U32>, key: U32, before: U32, past: seq<U32>,
                    tops: seq<U32>)
    requires cfg.candCap > 0 && G.EligibleTable(words, cfg.mode.table)
    requires i.conversion != [] && i.conversion[|i.conversion| - 1].key == Encode(key)
    requires G.NulFree(key) && forall k :: 0 <= k < |key| ==> !N.IsVariant(key[k])
    requires StandsBefore(i, before, past) && AreTops(i.conversion[..|i.conversion| - 1], tops)
    ensures var context := Cleaned(cfg, d.tier, before + Joined(tops));
      Rewritten(cfg, d, i).called ==
        if cfg.enabled && d.tier < 4 && i.conversion[|i.conversion| - 1].candidates != [] && key != []
           && Passes(cfg.mode, words, key, context)
        then Some(i.hook(Encode(key), NBest(cfg, d, i), Encode(context)).Answered?)
        else None
  {
    var context := Cleaned(cfg, d.tier, before + Joined(tops));
    ReadingSent(i, key);
    ContextSent(cfg, d, i, before, past, tops);
    GuardPasses(cfg.mode, words, key, context);
    EmptyKey(key);
    hide *;
    CalledIs(cfg, d, i);
  }

  lemma EmptyKey(key: U32)
    ensures Encode(key) == [] <==> key == []
  {
  }

  lemma CalledIs(cfg: Config, d: D.State, i: Input)
    requires i.conversion != [] && cfg.candCap > 0
    ensures Rewritten(cfg, d, i).called ==
      if cfg.enabled && d.tier < 4 && i.conversion[|i.conversion| - 1].candidates != [] && Reading(i) != []
         && G.SkipReason(cfg.mode, Reading(i), ContextPrev(cfg, d, i)) == G.NoSkip
      then Some(i.hook(Reading(i), NBest(cfg, d, i), ContextPrev(cfg, d, i)).Answered?)
      else None
  {
    hide Reordered, Values, ContextPrev, Reading, NBest, G.SkipReason, D.AfterTimeout, D.AfterSuccess;
    if Applies(cfg, d, i) {
      NBestNotEmpty(cfg, d, i);
      RewrittenIs(cfg, d, i);
    } else {
      DoesNothing(cfg, d, i);
    }
  }

  /** Whatever the bytes: under the strict guard only readings of the table are asked for. */
  lemma AskedIsEligible(cfg: Config, d: D.State, i: Input)
    requires i.conversion != [] && cfg.candCap > 0 && cfg.mode.enabled && cfg.mode.strict
    requires Rewritten(cfg, d, i).called.Some?
    ensures G.CStr(Reading(i)) in cfg.mode.table
  {
    CalledIs(cfg, d, i);
    hide Rewritten, Reading, ContextPrev, NBest, G.CStr, G.Cps;
  }
}
