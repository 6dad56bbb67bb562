/**
 `rerank` of runtime/rerank_daemon.py from the request to the answer; an exception is an answer
 without candidates.
 */
module Daemon {
  import opened Text
  import opened Utf8
  import opened Ranking
  import G = Guard
  import P = PyContext

  /** What comes from Python's Unicode tables, from the model and from the policy file. */
  datatype Env = Env(
    nfkc: U32 -> U32, isAlpha: CodePoint -> bool,
    score: (U32, U32, seq<Surface>) -> Option<seq<real>>, tau: real, candCap: int)

  const MAX_CHARS := 50

  function KanaShift(c: CodePoint): CodePoint { if 0x30A1 <= c <= 0x30F6 then c - 0x60 else c }

  predicate IsLinguistic(env: Env, c: CodePoint) {
    || 0x3040 <= c <= 0x30FF || 0x31F0 <= c <= 0x31FF || 0x3400 <= c <= 0x9FFF || 0xF900 <= c <= 0xFAFF
    || 0xFF66 <= c <= 0xFF9D || env.isAlpha(c)
  }

  /** [value for value in nbest if value] */
  function NonEmpty(nbest: seq<Surface>): seq<Surface> {
    if nbest == [] then []
    else (if nbest[0] != [] then [nbest[0]] else []) + NonEmpty(nbest[1..])
  }

  /** candidates[:cap] */
  function Slice(s: seq<Surface>, cap: int): seq<Surface> {
    if cap >= 0 then (if cap < |s| then s[..cap] else s)
    else if -cap <= |s| then s[..|s| + cap]
    else []
  }

  const REFUSED: HookResult<Surface> := HookResult([], [], [], false)

  ghost predicate Readable(reading: Bytes, context: Bytes, nbest: seq<Surface>) {
    WellFormed(reading) && WellFormed(context) && forall k :: 0 <= k < |nbest| ==> WellFormed(nbest[k])
  }

  /** The candidates that are scored. */
  function Candidates(env: Env, nbest: seq<Surface>): seq<Surface> { Slice(NonEmpty(nbest), env.candCap) }

  ghost predicate Skips(env: Env, reading: U32, context: U32) {
    |reading| <= 2 || context == [] || !(exists k :: 0 <= k < |context| && IsLinguistic(env, context[k]))
  }

  /**
   The request is refused when it is not UTF-8, when the reading or the list is empty, or when an
   exception is raised; the guard answers with the candidates as they are; otherwise they are ranked.
   */
  ghost function Rerank(env: Env, reading: Bytes, context: Bytes, nbest: seq<Surface>): HookResult<Surface> {
    if !Readable(reading, context, nbest) then REFUSED
    else
      var r := Map(KanaShift, env.nfkc(Decode(reading)));
      var c := P.CleanContext(Decode(context), MAX_CHARS);
      var candidates := Candidates(env, nbest);
      if r == [] || candidates == [] then REFUSED
      else if Skips(env, r, c) then HookResult(candidates, candidates[0], candidates[0], false)
      else
        var scores := env.score(r, c, candidates);
        if scores.None? || |scores.value| != |candidates| then REFUSED
        else DaemonRerank(candidates, scores.value, env.tau)
  }

  // ----- what an answer consists of -----

  lemma {:induction false} NonEmptyPart(nbest: seq<Surface>)
    ensures multiset(NonEmpty(nbest)) <= multiset(nbest)
    ensures forall v :: v in NonEmpty(nbest) ==> v != []
  {
    if nbest != [] {
      NonEmptyPart(nbest[1..]);
      assert nbest == [nbest[0]] + nbest[1..];
    }
  }

  lemma SlicePart(s: seq<Surface>, cap: int)
    ensures multiset(Slice(s, cap)) <= multiset(s)
  {
    var t := Slice(s, cap);
    assert s == t + s[|t|..];
  }

  lemma CandidatesPart(env: Env, nbest: seq<Surface>)
    ensures var c := Candidates(env, nbest);
      multiset(c) <= multiset(nbest) && forall v :: v in c ==> v in nbest && v != []
  {
    hide NonEmpty, Slice;
    NonEmptyPart(nbest);
    SlicePart(NonEmpty(nbest), env.candCap);
    var c := Candidates(env, nbest);
    forall v | v in c
      ensures v in nbest && v != []
    {
      assert v in multiset(c);
      assert v in multiset(NonEmpty(nbest));
      assert v in NonEmpty(nbest);
      assert v in multiset(nbest);
    }
  }

  lemma {:induction false} RankedPart(candidates: seq<Surface>, scores: seq<real>, top: Surface)
    requires |scores| == |candidates| && top in candidates
    ensures multiset(Ranked(candidates, scores, top)) <= multiset(candidates)
    ensures Ranked(candidates, scores, top) != [] && Ranked(candidates, scores, top)[0] == top
  {
    forall v: Surface
      ensures multiset(Ranked(candidates, scores, top))[v] <= multiset(candidates)[v]
    {
      hide Ranked;
      RankedContents(candidates, scores, top, v);
      assert top in multiset(candidates);
    }
    hide SortedReverse, Others;
  }

  /** No answer invents a candidate or offers an empty one, and its final choice stands first. */
  lemma AnswerIsDrawn(env: Env, reading: Bytes, context: Bytes, nbest: seq<Surface>)
    ensures var a := Rerank(env, reading, context, nbest);
      && multiset(a.ranked) <= multiset(nbest)
      && (a.ranked != [] ==> a.ranked[0] == a.finalTop1 && a.finalTop1 != [] && a.finalTop1 in nbest)
      && (a.ranked != [] ==> a.rerankTop1 in nbest && a.rerankTop1 != [])
      && (a.ranked != [] ==> Readable(reading, context, nbest))
  {
    hide Readable, Candidates, Skips, Decode, P.CleanContext, Map, Ranked, DaemonJunk, FirstMax;
    CandidatesPart(env, nbest);
    var r, c, candidates := Map(KanaShift, env.nfkc(Decode(reading))), P.CleanContext(Decode(context), MAX_CHARS),
      Candidates(env, nbest);
    assert candidates != [] ==> candidates[0] in candidates;
    if Readable(reading, context, nbest) && r != [] && candidates != [] && !Skips(env, r, c) {
      var scores := env.score(r, c, candidates);
      if scores.Some? && |scores.value| == |candidates| {
        var a := DaemonRerank(candidates, scores.value, env.tau);
        assert a.finalTop1 in candidates && a.rerankTop1 in candidates;
        RankedPart(candidates, scores.value, a.finalTop1);
      }
    }
  }

  /** No answer overwrites with a surface that the rewriter would call junk. */
  lemma NeverJunk(env: Env, reading: Bytes, context: Bytes, nbest: seq<Surface>)
    ensures var a := Rerank(env, reading, context, nbest); !(a.overwritten && G.Junk(G.Cps(a.finalTop1)))
  {
    var a := Rerank(env, reading, context, nbest);
    if a.overwritten {
      CandidatesPart(env, nbest);
      OverwriteIsFit(env, reading, context, nbest);
      var k :| 0 <= k < |nbest| && nbest[k] == a.finalTop1;
      WellFormedIsCanonical(nbest[k]);
      hide *;
      G.ReadersAgree(a.finalTop1);
      G.JunkAgrees(Decode(a.finalTop1));
      JunkIs(a.finalTop1);
    }
  }

  lemma JunkIs(surface: Surface)
    ensures DaemonJunk(surface) <==> G.PyJunk(Decode(surface))
  {
  }

  lemma OverwriteIsFit(env: Env, reading: Bytes, context: Bytes, nbest: seq<Surface>)
    requires Rerank(env, reading, context, nbest).overwritten
    ensures var a := Rerank(env, reading, context, nbest);
      a.finalTop1 in nbest && !DaemonJunk(a.finalTop1) && Readable(reading, context, nbest)
  {
    CandidatesPart(env, nbest);
    hide Readable, Candidates, Skips, Decode, P.CleanContext, Map, Ranked, DaemonJunk, FirstMax;
  }

  // ----- the order without scores -----

  /** The candidates that are not empty, by their places. */
  lemma {:induction false} NonEmptyPlaces(nbest: seq<Surface>) returns (at: seq<nat>)
    ensures |at| == |NonEmpty(nbest)| && forall i, j :: 0 <= i < j < |at| ==> at[i] < at[j]
    ensures forall k :: 0 <= k < |at| ==> at[k] < |nbest| && nbest[at[k]] == NonEmpty(nbest)[k] && nbest[at[k]] != []
    ensures forall j :: 0 <= j < |nbest| && nbest[j] != [] ==> j in at
  {
    if nbest == [] {
      at := [];
    } else {
      var m := |nbest| - 1;
      at := NonEmptyPlaces(nbest[..m]);
      NonEmptySnoc(nbest[..m], nbest[m]);
      assert nbest == nbest[..m] + [nbest[m]];
      if nbest[m] != [] {
        ghost var was := at;
        at := at + [m];
        assert forall j :: j in was ==> j in at;
        assert m in at;
      }
      hide NonEmpty;
    }
  }

  lemma {:induction false} NonEmptySnoc(nbest: seq<Surface>, v: Surface)
    ensures NonEmpty(nbest + [v]) == NonEmpty(nbest) + if v != [] then [v] else []
  {
    if nbest == [] {
      assert nbest + [v] == [v] && [v][1..] == [];
    } else {
      assert (nbest + [v])[1..] == nbest[1..] + [v];
      NonEmptySnoc(nbest[1..], v);
    }
  }

  /** What the daemon normalises and cleans. */
  ghost function Prepared(env: Env, reading: Bytes, context: Bytes): (U32, U32) {
    (Map(KanaShift, env.nfkc(Decode(reading))), P.CleanContext(Decode(context), MAX_CHARS))
  }

  /** With no letter in the context or a short reading the first candidates come back in the order they had. */
  lemma SkippedAnswer(env: Env, reading: Bytes, context: Bytes, nbest: seq<Surface>) returns (at: seq<nat>)
    requires Readable(reading, context, nbest) && env.candCap >= 0
    requires var (r, c) := Prepared(env, reading, context); r != [] && Skips(env, r, c)
    ensures var a := Rerank(env, reading, context, nbest);
      && |at| == |a.ranked| <= env.candCap && (forall i, j :: 0 <= i < j < |at| ==> at[i] < at[j])
      && (forall k :: 0 <= k < |at| ==> at[k] < |nbest| && a.ranked[k] == nbest[at[k]] != [])
      && (forall j :: 0 <= j < |nbest| && nbest[j] != [] && j !in at ==>
           |at| == env.candCap && forall k :: 0 <= k < |at| ==> at[k] < j)
      && (at != [] ==> a.finalTop1 == a.rerankTop1 == nbest[at[0]]) && !a.overwritten
  {
    var all := NonEmptyPlaces(nbest);
    at := if env.candCap < |all| then all[..env.candCap] else all;
    SkippedIs(env, reading, context, nbest);
    hide *;
    SliceFirst(NonEmpty(nbest), env.candCap);
    CandidatesAre(env, nbest);
    FirstPlaces(all, env.candCap);
  }

  lemma FirstPlaces(all: seq<nat>, cap: int)
    requires cap >= 0 && forall i, j :: 0 <= i < j < |all| ==> all[i] < all[j]
    ensures var at := if cap < |all| then all[..cap] else all;
      forall j :: j in all && j !in at ==> |at| == cap && forall k :: 0 <= k < |at| ==> at[k] < j
  {
    var at := if cap < |all| then all[..cap] else all;
    assert forall m :: 0 <= m < |at| ==> at[m] == all[m] && all[m] in at;
    forall j | j in all && j !in at
      ensures |at| == cap && forall k :: 0 <= k < |at| ==> at[k] < j
    {
      var m :| 0 <= m < |all| && all[m] == j;
    }
  }

  lemma SliceFirst(s: seq<Surface>, cap: int)
    requires cap >= 0
    ensures Slice(s, cap) == if cap < |s| then s[..cap] else s
  {
  }

  lemma CandidatesAre(env: Env, nbest: seq<Surface>)
    ensures Candidates(env, nbest) == Slice(NonEmpty(nbest), env.candCap)
  {
  }

  lemma SkippedIs(env: Env, reading: Bytes, context: Bytes, nbest: seq<Surface>)
    requires Readable(reading, context, nbest)
    requires var (r, c) := Prepared(env, reading, context); r != [] && Skips(env, r, c)
    ensures var a, candidates := Rerank(env, reading, context, nbest), Candidates(env, nbest);
      && a.ranked == candidates && !a.overwritten
      && (candidates != [] ==> a.finalTop1 == a.rerankTop1 == candidates[0])
  {
    hide Readable, Candidates, Skips, Decode, P.CleanContext, Map;
  }

  /** There is no answer exactly when the request is unreadable, has no reading or no candidate, or cannot be scored. */
  lemma RefusedExactly(env: Env, reading: Bytes, context: Bytes, nbest: seq<Surface>)
    ensures var (r, c) := Prepared(env, reading, context);
      var candidates := Candidates(env, nbest);
      Rerank(env, reading, context, nbest).ranked == [] <==>
        || !Readable(reading, context, nbest) || r == [] || candidates == []
        || (!Skips(env, r, c)
            && (env.score(r, c, candidates).None? || |env.score(r, c, candidates).value| != |candidates|))
  {
    hide Readable, Candidates, Skips, Decode, P.CleanContext, Map, DaemonJunk, FirstMax, Others, SortedReverse;
  }
}
