/** The client's guard and the daemon's: on what the client sends they decide alike. */
module GuardAgreement {
  import opened Text
  import opened Utf8
  import C = ContextClip
  import D = Daemon
  import G = Guard
  import N = ReadingShape
  import P = PyContext
  import A = CleanAgreement
  import S = CleanShape

  /** Outside the Latin letters of the client and what Python calls a letter, both know the same characters. */
  lemma SameScripts(env: D.Env, c: CodePoint)
    requires !G.IsLatinLetter(c) && !env.isAlpha(c)
    ensures G.IsLinguistic(c) <==> D.IsLinguistic(env, c)
  {
  }

  /** Python calls a letter what the client does. */
  ghost predicate SameLetters(env: D.Env, c: CodePoint) {
    (G.IsLatinLetter(c) ==> env.isAlpha(c)) && (env.isAlpha(c) ==> G.IsLinguistic(c))
  }

  lemma SameWords(env: D.Env, c: CodePoint)
    requires SameLetters(env, c)
    ensures G.IsLinguistic(c) <==> D.IsLinguistic(env, c)
  {
    if !G.IsLatinLetter(c) && !env.isAlpha(c) {
      SameScripts(env, c);
    }
  }

  /** The daemon passes over a request exactly when the client's guard, without its table, would have. */
  lemma GuardsAgree(env: D.Env, g: G.Mode, reading: U32, context: U32)
    requires g.enabled && !g.strict && forall k :: 0 <= k < |context| ==> SameLetters(env, context[k])
    ensures D.Skips(env, reading, context) <==> G.SkipReason(g, Encode(reading), Encode(context)) != G.NoSkip
  {
    forall k | 0 <= k < |context|
      ensures G.IsLinguistic(context[k]) <==> D.IsLinguistic(env, context[k])
    {
      SameWords(env, context[k]);
    }
    G.CpsEncode(reading);
    G.CpsEncode(context);
    hide Encode, G.Cps, G.IsLinguistic, D.IsLinguistic;
  }

  /** What the client has cleaned and normalised reaches the daemon's guard unchanged. */
  lemma NothingMoreToDo(env: D.Env, key: Bytes, t: U32)
    requires env.nfkc(Decode(N.Normalized(key))) == Decode(N.Normalized(key))
    requires S.Tidy(t) && All(t, S.Unmarked) && All(t, A.Plain) && |t| <= 50 && (t != [] ==> t[0] != C.SPACE)
    ensures D.Prepared(env, N.Normalized(key), Encode(t)) == (Decode(N.Normalized(key)), t)
  {
    N.NothingToShift(key);
    DecodeEncode(t);
    S.CleanTidyText(t, D.MAX_CHARS);
    hide Encode, Decode, N.Normalized, P.CleanContext, C.CleanU32, S.Tidy, Map;
    A.CleanersAgree(t, D.MAX_CHARS);
  }

  /** So a request that the client's guard lets through is ranked, and one it would stop comes back as it is. */
  lemma DaemonSkipsLikeTheClient(env: D.Env, g: G.Mode, key: Bytes, t: U32)
    requires g.enabled && !g.strict && forall k :: 0 <= k < |t| ==> SameLetters(env, t[k])
    requires env.nfkc(Decode(N.Normalized(key))) == Decode(N.Normalized(key))
    requires S.Tidy(t) && All(t, S.Unmarked) && All(t, A.Plain) && |t| <= 50 && (t != [] ==> t[0] != C.SPACE)
    ensures var (r, c) := D.Prepared(env, N.Normalized(key), Encode(t));
      D.Skips(env, r, c) <==> G.SkipReason(g, N.Normalized(key), Encode(t)) != G.NoSkip
  {
    NothingMoreToDo(env, key, t);
    GuardsAgree(env, g, Decode(N.Normalized(key)), t);
    Reencoded(key);
    hide *;
  }

  lemma Reencoded(key: Bytes)
    ensures Encode(Decode(N.Normalized(key))) == N.Normalized(key)
  {
    DecodeEncode(Map(C.NormalizeChar, Decode(key)));
    hide Encode, Decode;
  }
}
