/** The degrade counters of mozc_compat/rerank_rewriter.cc: five failures down, five successes up. */
module Degrade {

  datatype State = State(timeouts: nat, oks: nat, tier: nat)

  const FRESH := State(0, 0, 0)

  function AfterTimeout(d: State): State {
    if d.timeouts + 1 >= 5 && d.tier < 4 then State(0, 0, d.tier + 1)
    else State(d.timeouts + 1, 0, d.tier)
  }

  function AfterSuccess(d: State): State {
    if d.oks + 1 >= 5 && d.tier > 0 then State(0, 0, d.tier - 1)
    else State(0, d.oks + 1, d.tier)
  }

  function Note(d: State, ok: bool): State { if ok then AfterSuccess(d) else AfterTimeout(d) }

  /** The counters after a sequence of hook outcomes; true is a success. */
  function Run(d: State, outcomes: seq<bool>): State
    decreases |outcomes|
  {
    if outcomes == [] then d else Run(Note(d, outcomes[0]), outcomes[1..])
  }

  lemma {:induction false} RunAppend(d: State, a: seq<bool>, b: seq<bool>)
    ensures Run(d, a + b) == Run(Run(d, a), b)
    decreases |a|
  {
    if a == [] {
      assert a + b == b;
    } else {
      assert (a + b)[1..] == a[1..] + b;
      RunAppend(Note(d, a[0]), a[1..], b);
    }
  }

  /** What every reachable state satisfies. */
  predicate Valid(d: State) {
    && d.tier <= 4
    && (d.tier < 4 ==> d.timeouts < 5)
    && (d.tier > 0 ==> d.oks < 5)
    && (d.timeouts == 0 || d.oks == 0)
  }

  lemma {:induction false} RunValid(d: State, outcomes: seq<bool>)
    requires Valid(d)
    ensures Valid(Run(d, outcomes))
    decreases |outcomes|
  {
    if outcomes != [] {
      RunValid(Note(d, outcomes[0]), outcomes[1..]);
    }
  }

  function Failures(outcomes: seq<bool>): nat {
    if outcomes == [] then 0 else (if outcomes[0] then 0 else 1) + Failures(outcomes[1..])
  }

  /** The tier is paid for: each step down cost five failures of its own. */
  lemma {:induction false} FailuresPayForTiers(d: State, outcomes: seq<bool>)
    ensures var e := Run(d, outcomes);
      5 * e.tier + e.timeouts <= 5 * d.tier + d.timeouts + Failures(outcomes)
    decreases |outcomes|
  {
    if outcomes != [] {
      FailuresPayForTiers(Note(d, outcomes[0]), outcomes[1..]);
    }
  }

  // ----- closed form, block by block -----

  function Repeat(ok: bool, k: nat): seq<bool> { if k == 0 then [] else [ok] + Repeat(ok, k - 1) }

  function Down(tier: nat, k: nat): nat { if tier + k / 5 > 4 then 4 else tier + k / 5 }
  function Up(tier: nat, k: nat): nat { if k / 5 > tier then 0 else tier - k / 5 }

  lemma {:induction false} TimeoutBlock(d: State, k: nat)
    requires Valid(d)
    ensures var e := Run(d, Repeat(false, k));
      && (d.tier < 4 || k == 0 || e.tier == 4)
      && (d.tier < 4 ==> e.tier == Down(d.tier, d.timeouts + k))
      && 5 * e.tier + e.timeouts == 5 * d.tier + d.timeouts + k
      && (k > 0 ==> e.oks == 0)
    decreases k
  {
    if k > 0 {
      assert Repeat(false, k)[0] == false && Repeat(false, k)[1..] == Repeat(false, k - 1);
      TimeoutBlock(AfterTimeout(d), k - 1);
    }
  }

  lemma {:induction false} SuccessBlock(d: State, k: nat)
    requires Valid(d)
    ensures var e := Run(d, Repeat(true, k));
      && (d.tier > 0 ==> e.tier == Up(d.tier, d.oks + k))
      && (d.tier == 0 ==> e.tier == 0)
      && 5 * e.tier - e.oks == 5 * d.tier - d.oks - k
      && (k > 0 ==> e.timeouts == 0)
    decreases k
  {
    if k > 0 {
      assert Repeat(true, k)[0] == true && Repeat(true, k)[1..] == Repeat(true, k - 1);
      SuccessBlock(AfterSuccess(d), k - 1);
    }
  }

  /** A maximal block of equal outcomes. */
  datatype Block = Block(ok: bool, k: nat)

  /** The maximal blocks of a sequence. */
  function Blocks(outcomes: seq<bool>): (bs: seq<Block>) {
    if outcomes == [] then []
    else
      var rest := Blocks(outcomes[1..]);
      if rest != [] && rest[0].ok == outcomes[0] then [Block(outcomes[0], rest[0].k + 1)] + rest[1..]
      else [Block(outcomes[0], 1)] + rest
  }

  function Expand(bs: seq<Block>): seq<bool> {
    if bs == [] then [] else Repeat(bs[0].ok, bs[0].k) + Expand(bs[1..])
  }

  ghost predicate Maximal(bs: seq<Block>) {
    && (forall i :: 0 <= i < |bs| ==> bs[i].k > 0)
    && (forall i :: 0 < i < |bs| ==> bs[i].ok != bs[i - 1].ok)
  }

  lemma MaximalCons(b: Block, rest: seq<Block>)
    requires Maximal(rest) && b.k > 0 && (rest != [] ==> rest[0].ok != b.ok)
    ensures Maximal([b] + rest) && Expand([b] + rest) == Repeat(b.ok, b.k) + Expand(rest)
  {
    var bs := [b] + rest;
    assert bs[1..] == rest;
    forall i | 0 < i < |bs|
      ensures bs[i].ok != bs[i - 1].ok
    {
      assert i > 1 ==> rest[i - 1].ok != rest[i - 2].ok;
    }
  }

  lemma MaximalTail(bs: seq<Block>)
    requires Maximal(bs) && bs != []
    ensures Maximal(bs[1..]) && (|bs| > 1 ==> bs[1].ok != bs[0].ok) && bs[0].k > 0
    ensures Expand(bs) == Repeat(bs[0].ok, bs[0].k) + Expand(bs[1..])
  {
    var rest := bs[1..];
    forall i | 0 < i < |rest|
      ensures rest[i].ok != rest[i - 1].ok
    {
      assert bs[i + 1].ok != bs[i].ok;
    }
  }

  lemma {:induction false} BlocksAreMaximal(outcomes: seq<bool>)
    ensures Maximal(Blocks(outcomes)) && Expand(Blocks(outcomes)) == outcomes
    ensures outcomes != [] ==> Blocks(outcomes) != [] && Blocks(outcomes)[0].ok == outcomes[0]
  {
    if outcomes != [] {
      var o, t := outcomes[0], outcomes[1..];
      var rest := Blocks(t);
      BlocksAreMaximal(t);
      hide *;
      assert outcomes == [o] + t;
      BlocksUnfold(outcomes);
      if rest != [] && rest[0].ok == o {
        MaximalTail(rest);
        MaximalCons(Block(o, rest[0].k + 1), rest[1..]);
        RepeatMore(o, rest[0].k, Expand(rest[1..]));
      } else {
        MaximalCons(Block(o, 1), rest);
        RepeatMore(o, 0, t);
      }
    }
  }

  lemma BlocksUnfold(outcomes: seq<bool>)
    requires outcomes != []
    ensures var o, rest := outcomes[0], Blocks(outcomes[1..]);
      Blocks(outcomes) ==
        if rest != [] && rest[0].ok == o then [Block(o, rest[0].k + 1)] + rest[1..] else [Block(o, 1)] + rest
  {
  }

  lemma RepeatMore(o: bool, k: nat, s: seq<bool>)
    ensures Repeat(o, k + 1) + s == [o] + (Repeat(o, k) + s)
    ensures Repeat(o, 1) + s == [o] + s
  {
    assert Repeat(o, 1) == [o] + Repeat(o, 0);
  }

  /** Each block of k failures adds k / 5 up to 4, each block of k successes takes k / 5 down to 0. */
  function TierAfter(tier: nat, bs: seq<Block>): nat
    decreases |bs|
  {
    if bs == [] then tier
    else TierAfter(if bs[0].ok then Up(tier, bs[0].k) else Down(tier, bs[0].k), bs[1..])
  }

  /** A block begins where the counter of its kind is zero. */
  lemma {:induction false} RunBlocks(d: State, bs: seq<Block>)
    requires Valid(d) && Maximal(bs)
    requires bs != [] ==> if bs[0].ok then d.oks == 0 else d.timeouts == 0
    ensures Run(d, Expand(bs)).tier == TierAfter(d.tier, bs)
    decreases |bs|
  {
    if bs != [] {
      var b, rest := bs[0], bs[1..];
      var e := Run(d, Repeat(b.ok, b.k));
      RunAppend(d, Repeat(b.ok, b.k), Expand(rest));
      RunValid(d, Repeat(b.ok, b.k));
      if b.ok {
        SuccessBlock(d, b.k);
      } else {
        TimeoutBlock(d, b.k);
      }
      MaximalTail(bs);
      hide Run, Repeat, Maximal, Expand;
      RunBlocks(e, rest);
    }
  }

  /** The tier after any outcomes at all is the fold over their maximal blocks. */
  lemma TierClosedForm(outcomes: seq<bool>)
    ensures Run(FRESH, outcomes).tier == TierAfter(0, Blocks(outcomes))
    ensures var e := Run(FRESH, outcomes); Valid(e) && 5 * e.tier + e.timeouts <= Failures(outcomes)
  {
    assert Valid(FRESH);
    hide Run, Blocks, Expand, Maximal, TierAfter;
    BlocksAreMaximal(outcomes);
    RunBlocks(FRESH, Blocks(outcomes));
    RunValid(FRESH, outcomes);
    FailuresPayForTiers(FRESH, outcomes);
  }
}
