/** What rules N0-N2 promise, said of the classes that `resolve` leaves behind. */
module Outcome {
  import opened BidiTypes
  import opened Explicit
  import opened Runs
  import opened Chains
  import opened Neutral
  import opened NeutralFacts
  import opened Brackets
  import opened BracketFacts
  import opened Passes
  import opened Resolution

  /** The characters of sequence `a` as the rules see them. */
  ghost function ChainOf(base: Level, types: seq<BidiClass>, paragraph: seq<ParaChar>, a: nat): Ctx
    requires Readable(base, types, paragraph) && a < |ExplicitSequences(base, types)|
  {
    ExplicitEnvOk(base, types, paragraph);
    CtxOf(ExplicitEnv(base, types, paragraph), ExplicitSequences(base, types)[a])
  }

  /** Their classes after the first `stage` rules. */
  ghost function ChainClasses(base: Level, types: seq<BidiClass>, paragraph: seq<ParaChar>, a: nat, stage: nat): (cls: seq<BidiClass>)
    requires Readable(base, types, paragraph) && a < |ExplicitSequences(base, types)| && stage <= 10
    ensures CtxOk(ChainOf(base, types, paragraph, a), cls) && |cls| == |ExplicitSequences(base, types)[a].indices|
  {
    ExplicitEnvOk(base, types, paragraph);
    var env, seqs, explicit := ExplicitEnv(base, types, paragraph), ExplicitSequences(base, types), Classes(MAX_DEPTH, base, types);
    AfterIsOk(stage, env, seqs, explicit, a);
    After(stage, env, seqs, explicit, a)
  }

  /** Sequence `b` has more open brackets than the bracket stack holds when N0 comes to it. */
  ghost predicate OverflowsIn(base: Level, types: seq<BidiClass>, paragraph: seq<ParaChar>, b: nat)
    requires Readable(base, types, paragraph) && b < |ExplicitSequences(base, types)|
  {
    var c, cls := ChainOf(base, types, paragraph, b), ChainClasses(base, types, paragraph, b, BRACKET_STAGE - 1);
    c.chars != [] && Overflows(c, cls)
  }

  /** N0 comes to sequence `a`: neither it nor any sequence before it overflows the bracket stack. */
  ghost predicate ReachedByN0(base: Level, types: seq<BidiClass>, paragraph: seq<ParaChar>, a: nat)
    requires Readable(base, types, paragraph) && a < |ExplicitSequences(base, types)|
  {
    forall b: nat :: b <= a ==> !OverflowsIn(base, types, paragraph, b)
  }

  lemma ReachedIsApplied(base: Level, types: seq<BidiClass>, paragraph: seq<ParaChar>, a: nat)
    requires Readable(base, types, paragraph) && a < |ExplicitSequences(base, types)|
    requires ReachedByN0(base, types, paragraph, a)
    ensures ChainClasses(base, types, paragraph, a, BRACKET_STAGE)
            == Apply(RuleN0, ChainOf(base, types, paragraph, a), ChainClasses(base, types, paragraph, a, BRACKET_STAGE - 1))
  {
    ExplicitEnvOk(base, types, paragraph);
    var env, seqs, explicit := ExplicitEnv(base, types, paragraph), ExplicitSequences(base, types), Classes(MAX_DEPTH, base, types);
    var last := BRACKET_STAGE - 1;
    forall b: nat | b <= a ensures !Stops(last, env, seqs, explicit, b) {
      assert !OverflowsIn(base, types, paragraph, b);
    }
    BracketStep(env, seqs, explicit, a);
  }

  /** N0 is skipped where a sequence before has overflowed. */
  lemma SkippedAfter(base: Level, types: seq<BidiClass>, paragraph: seq<ParaChar>, a: nat, b: nat, stage: nat)
    requires Readable(base, types, paragraph) && b <= a < |ExplicitSequences(base, types)| && stage == BRACKET_STAGE
    requires OverflowsIn(base, types, paragraph, b)
    ensures ChainClasses(base, types, paragraph, a, stage) == ChainClasses(base, types, paragraph, a, stage - 1)
  {
    ExplicitEnvOk(base, types, paragraph);
    var env, seqs, explicit := ExplicitEnv(base, types, paragraph), ExplicitSequences(base, types), Classes(MAX_DEPTH, base, types);
    var last := BRACKET_STAGE - 1;
    assert Stops(last, env, seqs, explicit, b);
    hide Stops, EnvOk, After, ExplicitEnv, ExplicitSequences, Classes;
    BracketStep(env, seqs, explicit, a);
  }

  /** The final class of a character of the sequence. */
  lemma FinalClassOf(base: Level, types: seq<BidiClass>, paragraph: seq<ParaChar>, classes: seq<BidiClass>, levels: seq<Level>, a: nat, k: nat)
    requires Readable(base, types, paragraph) && IsResolution(base, types, paragraph, classes, levels)
    requires a < |ExplicitSequences(base, types)| && k < |ExplicitSequences(base, types)[a].indices|
    ensures ExplicitSequences(base, types)[a].indices[k] < |classes|
    ensures classes[ExplicitSequences(base, types)[a].indices[k]]
            == var c := ChainOf(base, types, paragraph, a); N2(c, N1(c, ChainClasses(base, types, paragraph, a, BRACKET_STAGE)))[k]
  {
    ExplicitEnvOk(base, types, paragraph);
    var env, seqs, explicit := ExplicitEnv(base, types, paragraph), ExplicitSequences(base, types), Classes(MAX_DEPTH, base, types);
    var c := CtxOf(env, seqs[a]);
    hide After, EnvOk, Apply, N1, N2, CtxOf, ExplicitEnv, ExplicitSequences, Classes, CtxOk;
    assert ChainAt(10, env, seqs, explicit, classes, a);
    EnvGivesCtx(env, seqs, explicit, a);
    LastRules(env, seqs, explicit, a);
    assert Gather(classes, seqs[a].indices)[k] == classes[seqs[a].indices[k]];
  }

  lemma LastRules(env: Env, seqs: seq<IsoSeq>, types: seq<BidiClass>, a: nat)
    requires EnvOk(env, seqs, types) && a < |seqs|
    ensures CtxOk(CtxOf(env, seqs[a]), After(BRACKET_STAGE, env, seqs, types, a))
    ensures var c := CtxOf(env, seqs[a]);
            After(10, env, seqs, types, a) == N2(c, N1(c, After(BRACKET_STAGE, env, seqs, types, a)))
  {
    AfterIsOk(BRACKET_STAGE, env, seqs, types, a);
    assert EnvSized(env, seqs, types);
    N1Stage(env, seqs, types, a);
    N2Stage(env, seqs, types, a);
    hide *;
  }

  lemma N1Stage(env: Env, seqs: seq<IsoSeq>, types: seq<BidiClass>, a: nat)
    requires EnvSized(env, seqs, types) && a < |seqs|
    ensures After(9, env, seqs, types, a) == N1(CtxOf(env, seqs[a]), After(BRACKET_STAGE, env, seqs, types, a))
  {
    hide EnvSized, After, CtxOf, N1;
    AfterStep(9, env, seqs, types, a);
  }

  lemma N2Stage(env: Env, seqs: seq<IsoSeq>, types: seq<BidiClass>, a: nat)
    requires EnvSized(env, seqs, types) && a < |seqs|
    ensures After(10, env, seqs, types, a) == N2(CtxOf(env, seqs[a]), After(9, env, seqs, types, a))
  {
    hide EnvSized, After, CtxOf, N2;
    AfterStep(10, env, seqs, types, a);
  }

  /** In the result every maximal block of neutrals of a sequence has one class: the direction both its
      sides share, or else the embedding direction. */
  lemma BlocksInResult(base: Level, types: seq<BidiClass>, paragraph: seq<ParaChar>, classes: seq<BidiClass>, levels: seq<Level>, a: nat, lo: nat, hi: nat)
    requires Readable(base, types, paragraph) && IsResolution(base, types, paragraph, classes, levels)
    requires a < |ExplicitSequences(base, types)|
    requires NeutralBlock(ChainOf(base, types, paragraph, a), ChainClasses(base, types, paragraph, a, BRACKET_STAGE), lo, hi)
    ensures var c, cls := ChainOf(base, types, paragraph, a), ChainClasses(base, types, paragraph, a, BRACKET_STAGE);
            forall k :: lo <= k < hi && !Removed(c.levels[k]) ==>
              && ExplicitSequences(base, types)[a].indices[k] < |classes|
              && classes[ExplicitSequences(base, types)[a].indices[k]] == BlockClass(c, cls, lo, hi)
  {
    var c, cls := ChainOf(base, types, paragraph, a), ChainClasses(base, types, paragraph, a, BRACKET_STAGE);
    BlockGetsOneClass(c, cls, lo, hi);
    hide ChainOf, ChainClasses, ExplicitSequences, IsResolution, Readable, BlockClass, N1, N2;
    forall k | lo <= k < hi && !Removed(c.levels[k])
      ensures ExplicitSequences(base, types)[a].indices[k] < |classes|
      ensures classes[ExplicitSequences(base, types)[a].indices[k]] == BlockClass(c, cls, lo, hi)
    {
      FinalClassOf(base, types, paragraph, classes, levels, a, k);
    }
  }

  /** The table gives no combining mark as a bracket. */
  ghost predicate TableHasNoMarks(paragraph: seq<ParaChar>, types: seq<BidiClass>) {
    |paragraph| == |types| && forall p :: 0 <= p < |paragraph| && paragraph[p].bracket.Some? ==> types[p] != NSM
  }

  lemma ChainHasNoMarks(base: Level, types: seq<BidiClass>, paragraph: seq<ParaChar>, a: nat)
    requires Readable(base, types, paragraph) && a < |ExplicitSequences(base, types)|
    requires paragraph != [] && TableHasNoMarks(paragraph, types)
    ensures var c := ChainOf(base, types, paragraph, a);
            BracketsAreNoMarks(c) && |c.chars| == |c.orig| == |ExplicitSequences(base, types)[a].indices|
  {
    ExplicitEnvOk(base, types, paragraph);
    hide EnvOk, ExplicitSequences, Levels, Readable;
  }

  /** Brackets that N0 has given a direction keep it: in the result both brackets of the pair are of the
      class the pair was given in its turn. */
  lemma PairsInResult(base: Level, types: seq<BidiClass>, paragraph: seq<ParaChar>, classes: seq<BidiClass>, levels: seq<Level>, a: nat, i: nat)
    requires Readable(base, types, paragraph) && IsResolution(base, types, paragraph, classes, levels)
    requires paragraph != [] && TableHasNoMarks(paragraph, types) && a < |ExplicitSequences(base, types)|
    requires ReachedByN0(base, types, paragraph, a)
    requires var c, cls := ChainOf(base, types, paragraph, a), ChainClasses(base, types, paragraph, a, BRACKET_STAGE - 1);
             && |c.chars| == |cls| && !Overflows(c, cls) && i < |PairsOf(c, cls)|
             && PairClass(c, cls, PairsOf(c, cls), i, |PairsOf(c, cls)|) != ON
    ensures var c, cls := ChainOf(base, types, paragraph, a), ChainClasses(base, types, paragraph, a, BRACKET_STAGE - 1);
            var pairs, ind := PairsOf(c, cls), ExplicitSequences(base, types)[a].indices;
            && pairs[i].opening < |ind| && pairs[i].closing < |ind|
            && ind[pairs[i].opening] < |classes| && ind[pairs[i].closing] < |classes|
            && classes[ind[pairs[i].opening]] == classes[ind[pairs[i].closing]] == PairClass(c, cls, pairs, i, |pairs|)
  {
    var c, cls := ChainOf(base, types, paragraph, a), ChainClasses(base, types, paragraph, a, BRACKET_STAGE - 1);
    var pairs := PairsOf(c, cls);
    ChainHasNoMarks(base, types, paragraph, a);
    assert Sized(c, cls) && pairs[i].opening < pairs[i].closing < |cls|;
    PairClassIsLetter(c, cls, pairs, i, |pairs|);
    ReachedIsApplied(base, types, paragraph, a);
    hide *;
    N0IsResolvePairs(c, cls);
    BothBracketsAgree(c, cls, i);
    N0IsApplied(c, cls);
    FinalClassOf(base, types, paragraph, classes, levels, a, pairs[i].opening);
    FinalClassOf(base, types, paragraph, classes, levels, a, pairs[i].closing);
    var after := ChainClasses(base, types, paragraph, a, BRACKET_STAGE);
    LetterIsNoNeutral(after[pairs[i].opening]);
    OthersKeepTheirClass(c, after, pairs[i].opening);
    OthersKeepTheirClass(c, after, pairs[i].closing);
  }

  lemma LetterIsNoNeutral(bc: BidiClass)
    ensures IsLetter(bc) ==> !IsNeutral(bc)
  {
  }

  lemma PairClassIsLetter(c: Ctx, cls: seq<BidiClass>, pairs: seq<Pair>, i: nat, m: nat)
    requires i < |pairs| && m <= |pairs| && PairsIn(pairs, |cls|) && |cls| == |c.levels| == |c.orig|
    ensures PairClass(c, cls, pairs, i, m) == ON || IsLetter(PairClass(c, cls, pairs, i, m))
  {
    hide PairDirection, ResolvePairs;
  }

  lemma N0IsApplied(c: Ctx, cls: seq<BidiClass>)
    requires Sized(c, cls) && |cls| == |c.chars| && !Overflows(c, cls) && c.chars != []
    ensures Apply(RuleN0, c, cls) == N0(c, cls)
  {
    hide N0, Overflows;
  }
}
