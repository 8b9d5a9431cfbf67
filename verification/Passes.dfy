/** One rule applied to every isolating run sequence of a paragraph. */
module Passes {
  import opened BidiTypes
  import opened Runs
  import opened RunFacts
  import opened Chains
  import opened Weak
  import opened Neutral
  import opened Brackets

  datatype Rule = RuleW1 | RuleW2 | RuleW3 | RuleW4 | RuleW5 | RuleW6 | RuleW7 | RuleN0 | RuleN1 | RuleN2

  /** What stays fixed while the rules W1-N2 rewrite the classes. */
  datatype Env = Env(levels: seq<Level>, orig: seq<BidiClass>, paragraph: seq<ParaChar>)

  ghost predicate EnvSized(env: Env, seqs: seq<IsoSeq>, types: seq<BidiClass>) {
    && |env.levels| == |env.orig| == |types|
    && (env.paragraph == [] || |env.paragraph| == |types|)
    && forall a :: 0 <= a < |seqs| ==> InRange(seqs[a], |types|)
  }

  ghost predicate EnvOk(env: Env, seqs: seq<IsoSeq>, types: seq<BidiClass>) {
    && EnvSized(env, seqs, types)
    && SequencesOk(seqs, env.levels)
    && (forall a :: 0 <= a < |seqs| ==> 0 <= seqs[a].level <= MAX_DEPTH)
    && (forall p :: 0 <= p < |types| ==> (Removed(env.levels[p]) <==> IsRemovedClass(types[p])))
    && (forall p :: 0 <= p < |types| ==> (Removed(env.levels[p]) <==> IsRemovedClass(env.orig[p])))
  }

  ghost predicate InRange(s: IsoSeq, n: nat) {
    forall m :: 0 <= m < |s.indices| ==> s.indices[m] < n
  }

  ghost function CtxOf(env: Env, s: IsoSeq): Ctx
    requires |env.levels| == |env.orig| && InRange(s, |env.levels|)
    requires env.paragraph == [] || |env.paragraph| == |env.levels|
  {
    Ctx(s.sos, s.eos, s.level, Gather(env.levels, s.indices), Gather(env.orig, s.indices),
        if env.paragraph == [] then [] else Gather(env.paragraph, s.indices))
  }

  ghost function Apply(rule: Rule, c: Ctx, cls: seq<BidiClass>): (out: seq<BidiClass>)
    requires Sized(c, cls)
    ensures |out| == |cls|
  {
    match rule
    case RuleW1 => W1(c, cls)
    case RuleW2 => W2(c, cls)
    case RuleW3 => W3(c, cls)
    case RuleW4 => W4(c, cls)
    case RuleW5 => W5(c, cls)
    case RuleW6 => W6(c, cls)
    case RuleW7 => W7(c, cls)
    case RuleN0 => if c.chars == [] || Overflows(c, cls) then cls else N0(c, cls)
    case RuleN1 => N1(c, cls)
    case RuleN2 => N2(c, cls)
  }

  lemma ApplyIs(c: Ctx, cls: seq<BidiClass>)
    requires Sized(c, cls)
    ensures Apply(RuleW1, c, cls) == W1(c, cls) && Apply(RuleW2, c, cls) == W2(c, cls)
    ensures Apply(RuleW3, c, cls) == W3(c, cls) && Apply(RuleW4, c, cls) == W4(c, cls)
    ensures Apply(RuleW5, c, cls) == W5(c, cls) && Apply(RuleW6, c, cls) == W6(c, cls)
    ensures Apply(RuleW7, c, cls) == W7(c, cls)
    ensures Apply(RuleN1, c, cls) == N1(c, cls) && Apply(RuleN2, c, cls) == N2(c, cls)
  {
    hide W1, W2, W3, W4, W5, W6, W7, N1, N2;
  }

  lemma EnvGivesCtx(env: Env, seqs: seq<IsoSeq>, types: seq<BidiClass>, a: nat)
    requires EnvOk(env, seqs, types) && a < |seqs|
    ensures InRange(seqs[a], |types|)
    ensures CtxOk(CtxOf(env, seqs[a]), Gather(types, seqs[a].indices))
  {
    assert SequenceOk(seqs[a], env.levels);
  }

  /** The rule has been applied to the first `k` sequences and nothing else has changed. */
  ghost predicate Passed(rule: Rule, env: Env, seqs: seq<IsoSeq>, k: nat, before: seq<BidiClass>, after: seq<BidiClass>)
    requires EnvSized(env, seqs, before)
  {
    && |after| == |before| && k <= |seqs|
    && (forall a :: 0 <= a < k ==> Rewritten(rule, env, seqs, a, before, after))
    && (forall a :: k <= a < |seqs| ==> Untouched(seqs[a], before, after))
    && (forall p: nat :: p < |before| && !InSome(seqs, p) ==> after[p] == before[p])
  }

  ghost predicate Rewritten(rule: Rule, env: Env, seqs: seq<IsoSeq>, a: nat, before: seq<BidiClass>, after: seq<BidiClass>)
    requires EnvSized(env, seqs, before) && a < |seqs|
  {
    && |after| == |before|
    && Gather(after, seqs[a].indices) == Apply(rule, CtxOf(env, seqs[a]), Gather(before, seqs[a].indices))
  }

  ghost predicate Untouched(s: IsoSeq, before: seq<BidiClass>, after: seq<BidiClass>) {
    && |after| == |before|
    && forall m :: 0 <= m < |s.indices| && s.indices[m] < |before| ==> after[s.indices[m]] == before[s.indices[m]]
  }

  ghost predicate InSome(seqs: seq<IsoSeq>, p: nat) {
    exists a :: 0 <= a < |seqs| && p in seqs[a].indices
  }

  /** Rewriting one sequence leaves the classes of every other sequence alone. */
  lemma RewriteIsLocal(env: Env, seqs: seq<IsoSeq>, types: seq<BidiClass>, a: nat, b: nat, now: seq<BidiClass>, next: seq<BidiClass>, vals: seq<BidiClass>)
    requires EnvOk(env, seqs, types) && a < |seqs| && b < |seqs| && a != b && |now| == |types|
    requires IsRewrite(now, next, seqs[a].indices, vals)
    ensures Untouched(seqs[b], now, next)
  {
    assert SequenceOk(seqs[b], env.levels);
    forall m | 0 <= m < |seqs[b].indices| ensures next[seqs[b].indices[m]] == now[seqs[b].indices[m]] {
      var p := seqs[b].indices[m];
      assert p in seqs[b].indices;
      assert p !in seqs[a].indices;
    }
  }

  lemma UntouchedGathers(s: IsoSeq, before: seq<BidiClass>, after: seq<BidiClass>)
    requires Untouched(s, before, after) && InRange(s, |before|)
    ensures Gather(after, s.indices) == Gather(before, s.indices)
  {
  }

  lemma PassedStart(rule: Rule, env: Env, seqs: seq<IsoSeq>, before: seq<BidiClass>)
    requires EnvOk(env, seqs, before)
    ensures EnvSized(env, seqs, before) && Passed(rule, env, seqs, 0, before, before)
  {
  }

  lemma PassedStep(rule: Rule, env: Env, seqs: seq<IsoSeq>, k: nat, before: seq<BidiClass>, now: seq<BidiClass>, next: seq<BidiClass>)
    requires EnvOk(env, seqs, before) && k < |seqs|
    requires Passed(rule, env, seqs, k, before, now)
    requires IsRewrite(now, next, seqs[k].indices, Apply(rule, CtxOf(env, seqs[k]), Gather(now, seqs[k].indices)))
    ensures Passed(rule, env, seqs, k + 1, before, next)
  {
    var vals := Apply(rule, CtxOf(env, seqs[k]), Gather(now, seqs[k].indices));
    hide SequencesOk, Apply, CtxOf;
    UntouchedGathers(seqs[k], before, now);
    forall a | 0 <= a < k + 1 ensures Rewritten(rule, env, seqs, a, before, next) {
      EnvGivesCtx(env, seqs, before, a);
      if a < k {
        assert Rewritten(rule, env, seqs, a, before, now);
        RewriteIsLocal(env, seqs, before, k, a, now, next, vals);
        UntouchedGathers(seqs[a], now, next);
      } else {
        assert Gather(next, seqs[k].indices) == vals;
      }
    }
    forall a | k + 1 <= a < |seqs| ensures Untouched(seqs[a], before, next) {
      EnvGivesCtx(env, seqs, before, a);
      assert Untouched(seqs[a], before, now);
      RewriteIsLocal(env, seqs, before, k, a, now, next, vals);
    }
    forall p: nat | p < |before| && !InSome(seqs, p) ensures next[p] == before[p] {
      assert p !in seqs[k].indices;
    }
  }

  lemma PassedGivesCtx(rule: Rule, env: Env, seqs: seq<IsoSeq>, k: nat, before: seq<BidiClass>, now: seq<BidiClass>)
    requires EnvOk(env, seqs, before) && k < |seqs|
    requires Passed(rule, env, seqs, k, before, now)
    ensures |now| == |before| && InRange(seqs[k], |now|) && Increasing(seqs[k].indices)
    ensures |env.levels| == |env.orig| == |now| && (env.paragraph == [] || |env.paragraph| == |now|)
    ensures Sized(CtxOf(env, seqs[k]), Gather(now, seqs[k].indices))
    ensures Gather(now, seqs[k].indices) == Gather(before, seqs[k].indices)
    ensures CtxOk(CtxOf(env, seqs[k]), Gather(now, seqs[k].indices))
  {
    EnvGivesCtx(env, seqs, before, k);
    assert SequenceOk(seqs[k], env.levels);
    assert Untouched(seqs[k], before, now);
    UntouchedGathers(seqs[k], before, now);
  }

  ghost predicate OverflowsAt(env: Env, seqs: seq<IsoSeq>, types: seq<BidiClass>, a: nat)
    requires EnvSized(env, seqs, types) && a < |seqs|
  {
    var c := CtxOf(env, seqs[a]);
    c.chars != [] && Overflows(c, Gather(types, seqs[a].indices))
  }

  /** The first sequence from `a` on with more open brackets than the bracket stack holds. N0 stops
      there for the whole paragraph. */
  ghost function FirstOverflow(env: Env, seqs: seq<IsoSeq>, types: seq<BidiClass>, a: nat): nat
    requires EnvSized(env, seqs, types) && a <= |seqs|
    decreases |seqs| - a
  {
    if a == |seqs| || OverflowsAt(env, seqs, types, a) then a
    else FirstOverflow(env, seqs, types, a + 1)
  }

  lemma {:induction false} FirstOverflowIsFirst(env: Env, seqs: seq<IsoSeq>, types: seq<BidiClass>, a: nat)
    requires EnvSized(env, seqs, types) && a <= |seqs|
    ensures a <= FirstOverflow(env, seqs, types, a) <= |seqs|
    ensures forall d :: a <= d < FirstOverflow(env, seqs, types, a) ==> !OverflowsAt(env, seqs, types, d)
    ensures FirstOverflow(env, seqs, types, a) < |seqs| ==> OverflowsAt(env, seqs, types, FirstOverflow(env, seqs, types, a))
    decreases |seqs| - a
  {
    hide EnvSized, OverflowsAt;
    if a < |seqs| && !OverflowsAt(env, seqs, types, a) {
      FirstOverflowIsFirst(env, seqs, types, a + 1);
    }
  }

  /** N0 as the comment in the source describes it: a sequence with too many open brackets is skipped, and
      all the others are resolved. */
  ghost predicate SkipsOnlyOverflows(env: Env, seqs: seq<IsoSeq>, before: seq<BidiClass>, after: seq<BidiClass>)
    requires EnvSized(env, seqs, before)
  {
    Passed(RuleN0, env, seqs, |seqs|, before, after)
  }

  /** N0 would leave sequence `a` as it is. */
  ghost predicate NothingToResolve(env: Env, seqs: seq<IsoSeq>, before: seq<BidiClass>, a: nat)
    requires EnvSized(env, seqs, before) && a < |seqs|
  {
    Apply(RuleN0, CtxOf(env, seqs[a]), Gather(before, seqs[a].indices)) == Gather(before, seqs[a].indices)
  }

  lemma OverflowIsSkipped(env: Env, seqs: seq<IsoSeq>, before: seq<BidiClass>, a: nat)
    requires EnvSized(env, seqs, before) && a < |seqs| && OverflowsAt(env, seqs, before, a)
    ensures NothingToResolve(env, seqs, before, a)
  {
    hide EnvSized, N0, Overflows;
  }

  lemma UntouchedIsRewritten(env: Env, seqs: seq<IsoSeq>, before: seq<BidiClass>, after: seq<BidiClass>, a: nat)
    requires EnvSized(env, seqs, before) && a < |seqs| && Untouched(seqs[a], before, after)
    ensures Rewritten(RuleN0, env, seqs, a, before, after) <==> NothingToResolve(env, seqs, before, a)
  {
    assert InRange(seqs[a], |before|);
    UntouchedGathers(seqs[a], before, after);
    hide EnvSized, Apply, Untouched;
  }

  /** Giving up at the first overflow comes to the same as skipping the sequences that overflow, if and only
      if N0 has nothing to resolve in any later sequence. */
  lemma GivingUpIsSkippingIff(env: Env, seqs: seq<IsoSeq>, before: seq<BidiClass>, after: seq<BidiClass>)
    requires EnvSized(env, seqs, before)
    requires Passed(RuleN0, env, seqs, FirstOverflow(env, seqs, before, 0), before, after)
    ensures SkipsOnlyOverflows(env, seqs, before, after)
            <==> forall a: nat :: FirstOverflow(env, seqs, before, 0) < a < |seqs| ==> NothingToResolve(env, seqs, before, a)
  {
    var m := FirstOverflow(env, seqs, before, 0);
    FirstOverflowIsFirst(env, seqs, before, 0);
    hide EnvSized, FirstOverflow, OverflowsAt, Rewritten, NothingToResolve, InSome, Untouched;
    forall a: nat | m <= a < |seqs|
      ensures Rewritten(RuleN0, env, seqs, a, before, after) <==> NothingToResolve(env, seqs, before, a)
    {
      UntouchedIsRewritten(env, seqs, before, after, a);
    }
    if m < |seqs| {
      OverflowIsSkipped(env, seqs, before, m);
    }
  }

  lemma OverflowTurn(env: Env, seqs: seq<IsoSeq>, types: seq<BidiClass>, a: nat, ok: bool)
    requires EnvSized(env, seqs, types) && a < |seqs| && env.paragraph != []
    requires ok <==> !Overflows(CtxOf(env, seqs[a]), Gather(types, seqs[a].indices))
    ensures FirstOverflow(env, seqs, types, a) == if ok then FirstOverflow(env, seqs, types, a + 1) else a
  {
    hide EnvSized;
  }

  lemma {:induction false} NoOverflowWithoutParagraph(env: Env, seqs: seq<IsoSeq>, types: seq<BidiClass>, a: nat)
    requires EnvSized(env, seqs, types) && a <= |seqs| && env.paragraph == []
    ensures FirstOverflow(env, seqs, types, a) == |seqs|
    decreases |seqs| - a
  {
    if a < |seqs| {
      NoOverflowWithoutParagraph(env, seqs, types, a + 1);
    }
  }

  lemma NothingToPair(env: Env, seqs: seq<IsoSeq>, types: seq<BidiClass>)
    requires EnvSized(env, seqs, types) && env.paragraph == []
    ensures Passed(RuleN0, env, seqs, |seqs|, types, types)
  {
    forall a | 0 <= a < |seqs| ensures Rewritten(RuleN0, env, seqs, a, types, types) {
    }
  }

  /** N0 resolves the sorted pairs of the bracket scan. */
  lemma N0IsResolvePairs(c: Ctx, cls: seq<BidiClass>)
    requires CtxOk(c, cls) && |cls| == |c.chars| && !Overflows(c, cls)
    ensures PairsIn(PairsOf(c, cls), |cls|) && BracketPairs(c, cls, PairsOf(c, cls), |cls|)
    ensures PairsOf(c, cls) == SortPairs(PairScan(c, cls, |cls|).value.pairs)
    ensures Apply(RuleN0, c, cls) == ResolvePairs(c, cls, PairsOf(c, cls), |PairsOf(c, cls)|)
  {
    hide CtxOk;
    if c.chars == [] {
      assert PairsOf(c, cls) == [];
    }
  }
}
