/** What `resolve` computes, as a relation between the paragraph and the resolved classes and levels:
    the rules of UAX #9 in order, each on every isolating run sequence. */
module Resolution {
  import opened BidiTypes
  import opened Isolates
  import opened Explicit
  import opened Runs
  import opened RunFacts
  import opened Chains
  import opened Weak
  import opened Neutral
  import opened Brackets
  import opened Passes

  function BaseLevelFor(hint: Hint, types: seq<BidiClass>): Level {
    match hint
    case HintLtr => 0
    case HintRtl => 1
    case HintAutoLtr => ScanLevel(types, 0, 0, false, Ltr)
    case HintAutoRtl => ScanLevel(types, 0, 0, false, Rtl)
  }

  function ClassesOf(paragraph: seq<ParaChar>): seq<BidiClass> {
    seq(|paragraph|, k requires 0 <= k < |paragraph| => paragraph[k].bc)
  }

  lemma {:induction false} LastBaseIsKept(c: Ctx, cls: seq<BidiClass>, k: nat)
    requires CtxOk(c, cls) && k <= |cls|
    ensures !IsRemovedClass(LastBase(c, cls, k)) && LastBase(c, cls, k) != NSM
  {
    if k > 0 {
      LastBaseIsKept(c, cls, k - 1);
    }
  }

  /** A rewriting that keeps removed classes removed and gives others no removed class. */
  ghost predicate KeepsRemoved(cls: seq<BidiClass>, out: seq<BidiClass>) {
    && |out| == |cls|
    && forall k :: 0 <= k < |cls| ==> (IsRemovedClass(out[k]) <==> IsRemovedClass(cls[k]))
  }

  lemma KeptCtx(c: Ctx, cls: seq<BidiClass>, out: seq<BidiClass>)
    requires CtxOk(c, cls) && KeepsRemoved(cls, out)
    ensures CtxOk(c, out)
  {
  }

  lemma W1KeepsRemoved(c: Ctx, cls: seq<BidiClass>)
    requires CtxOk(c, cls)
    ensures KeepsRemoved(cls, W1(c, cls))
  {
    forall k | 0 <= k < |cls| ensures IsRemovedClass(W1(c, cls)[k]) <==> IsRemovedClass(cls[k]) {
      LastBaseIsKept(c, cls, k);
    }
  }

  lemma SetPairKeepsRemoved(c: Ctx, cls: seq<BidiClass>, p: Pair, d: Direction)
    requires CtxOk(c, cls) && p.opening < |cls| && p.closing < |cls|
    requires !Removed(c.levels[p.opening]) && !Removed(c.levels[p.closing])
    ensures KeepsRemoved(cls, SetPair(c, cls, p, d))
  {
    forall k | 0 <= k < |cls| ensures IsRemovedClass(SetPair(c, cls, p, d)[k]) <==> IsRemovedClass(cls[k]) {
      if c.orig[k] == NSM {
        assert !Removed(c.levels[k]);
      }
      assert SetPair(c, cls, p, d)[k] == SetPairAt(c, cls, p, d.AsClass(), k);
    }
  }

  ghost predicate PairsKept(c: Ctx, pairs: seq<Pair>) {
    forall i :: 0 <= i < |pairs| ==>
      && pairs[i].opening < pairs[i].closing < |c.levels|
      && !Removed(c.levels[pairs[i].opening]) && !Removed(c.levels[pairs[i].closing])
  }

  lemma {:induction false} PairsKeepRemoved(c: Ctx, cls: seq<BidiClass>, pairs: seq<Pair>, m: nat)
    requires CtxOk(c, cls) && m <= |pairs| && PairsIn(pairs, |cls|) && PairsKept(c, pairs)
    ensures KeepsRemoved(cls, ResolvePairs(c, cls, pairs, m))
  {
    if m > 0 {
      PairsKeepRemoved(c, cls, pairs, m - 1);
      var prior := ResolvePairs(c, cls, pairs, m - 1);
      KeptCtx(c, cls, prior);
      hide SetPair;
      match PairDirection(c, prior, pairs[m - 1])
      case None =>
      case Some(d) => SetPairKeepsRemoved(c, prior, pairs[m - 1], d);
    }
  }

  lemma BracketsAreKept(c: Ctx, cls: seq<BidiClass>, pairs: seq<Pair>)
    requires CtxOk(c, cls) && |cls| == |c.chars| && BracketPairs(c, cls, pairs, |cls|)
    ensures PairsKept(c, pairs)
  {
    forall i | 0 <= i < |pairs|
      ensures pairs[i].opening < pairs[i].closing < |c.levels|
      ensures !Removed(c.levels[pairs[i].opening]) && !Removed(c.levels[pairs[i].closing])
    {
      assert IsBracketPair(c, cls, pairs[i], |cls|);
      assert cls[pairs[i].opening] == ON && cls[pairs[i].closing] == ON;
    }
  }

  lemma W2KeepsRemoved(c: Ctx, cls: seq<BidiClass>)
    ensures KeepsRemoved(cls, W2(c, cls)) && KeepsRemoved(cls, W3(c, cls))
  {
    hide LastStrong;
  }

  lemma W4KeepsRemoved(c: Ctx, cls: seq<BidiClass>)
    requires |cls| == |c.levels|
    ensures KeepsRemoved(cls, W4(c, cls))
  {
    hide Between;
  }

  lemma W5KeepsRemoved(c: Ctx, cls: seq<BidiClass>)
    requires |cls| == |c.levels|
    ensures KeepsRemoved(cls, W5(c, cls)) && KeepsRemoved(cls, W6(c, cls))
  {
    hide TouchesEn;
  }

  lemma W7KeepsRemoved(c: Ctx, cls: seq<BidiClass>)
    ensures KeepsRemoved(cls, W7(c, cls))
  {
    hide LastLetter;
  }

  lemma N1KeepsRemoved(c: Ctx, cls: seq<BidiClass>)
    requires |cls| == |c.levels|
    ensures KeepsRemoved(cls, N1(c, cls)) && KeepsRemoved(cls, N2(c, cls))
  {
    hide PriorDirection, FollowingDirection;
  }

  lemma N0KeepsRemoved(c: Ctx, cls: seq<BidiClass>)
    requires CtxOk(c, cls)
    ensures KeepsRemoved(cls, Apply(RuleN0, c, cls))
  {
    if c.chars != [] && !Overflows(c, cls) {
      assert |cls| == |c.chars|;
      N0IsResolvePairs(c, cls);
      BracketsAreKept(c, cls, PairsOf(c, cls));
      PairsKeepRemoved(c, cls, PairsOf(c, cls), |PairsOf(c, cls)|);
    }
  }

  /** Every rule leaves the removed characters, and only them, with removed classes. */
  lemma RuleKeepsRemoved(rule: Rule, c: Ctx, cls: seq<BidiClass>)
    requires CtxOk(c, cls)
    ensures KeepsRemoved(cls, Apply(rule, c, cls))
  {
    W1KeepsRemoved(c, cls);
    W2KeepsRemoved(c, cls);
    W4KeepsRemoved(c, cls);
    W5KeepsRemoved(c, cls);
    W7KeepsRemoved(c, cls);
    N0KeepsRemoved(c, cls);
    N1KeepsRemoved(c, cls);
    hide KeepsRemoved, CtxOk, W1, W2, W3, W4, W5, W6, W7, N1, N2, N0;
  }

  /** Rewriting the sequences keeps the environment of the passes intact. */
  lemma PassKeepsEnv(rule: Rule, env: Env, seqs: seq<IsoSeq>, k: nat, before: seq<BidiClass>, after: seq<BidiClass>)
    requires EnvOk(env, seqs, before) && Passed(rule, env, seqs, k, before, after)
    ensures EnvOk(env, seqs, after)
  {
    hide Apply, CtxOf;
    forall p | 0 <= p < |after| ensures IsRemovedClass(after[p]) <==> IsRemovedClass(before[p]) {
      if InSome(seqs, p) {
        var a :| 0 <= a < |seqs| && p in seqs[a].indices;
        if a < k {
          RewrittenKeepsRemoved(rule, env, seqs, a, before, after, p);
        } else {
          assert Untouched(seqs[a], before, after);
        }
      }
    }
  }

  lemma RewrittenKeepsRemoved(rule: Rule, env: Env, seqs: seq<IsoSeq>, a: nat, before: seq<BidiClass>, after: seq<BidiClass>, p: nat)
    requires EnvOk(env, seqs, before) && a < |seqs| && Rewritten(rule, env, seqs, a, before, after)
    requires p in seqs[a].indices && p < |before|
    ensures IsRemovedClass(after[p]) <==> IsRemovedClass(before[p])
  {
    EnvGivesCtx(env, seqs, before, a);
    var ind := seqs[a].indices;
    RuleKeepsRemoved(rule, CtxOf(env, seqs[a]), Gather(before, ind));
    hide Apply, CtxOf, EnvOk;
    var m :| 0 <= m < |ind| && ind[m] == p;
    assert Gather(after, ind)[m] == after[p] && Gather(before, ind)[m] == before[p];
  }

  lemma LevelsInRange(base: Level, types: seq<BidiClass>)
    requires Completes(MAX_DEPTH, base, types)
    ensures |Levels(MAX_DEPTH, base, types)| == |Classes(MAX_DEPTH, base, types)| == |types|
    ensures forall k :: 0 <= k < |types| ==>
              var level, bc := Levels(MAX_DEPTH, base, types)[k], Classes(MAX_DEPTH, base, types)[k];
              && (Removed(level) <==> IsRemovedClass(types[k])) && (Removed(level) <==> IsRemovedClass(bc))
              && (Removed(level) || base <= level <= MAX_DEPTH)
  {
    hide Run;
    forall k | 0 <= k < |types|
      ensures var level, bc := LevelAt(MAX_DEPTH, base, types, k), ClassAt(MAX_DEPTH, base, types, k);
              && (Removed(level) <==> IsRemovedClass(types[k])) && (Removed(level) <==> IsRemovedClass(bc))
              && (Removed(level) || base <= level <= MAX_DEPTH)
    {
    }
  }

  ghost predicate Readable(base: Level, types: seq<BidiClass>, paragraph: seq<ParaChar>) {
    && Completes(MAX_DEPTH, base, types)
    && (paragraph == [] || |paragraph| == |types|)
  }

  // The text after X1-X10: classes, levels, sequences.
  ghost function ExplicitEnv(base: Level, types: seq<BidiClass>, paragraph: seq<ParaChar>): Env
    requires Readable(base, types, paragraph)
  {
    Env(Levels(MAX_DEPTH, base, types), types, paragraph)
  }

  ghost function ExplicitSequences(base: Level, types: seq<BidiClass>): seq<IsoSeq>
    requires Completes(MAX_DEPTH, base, types)
  {
    SequencesOfText(Classes(MAX_DEPTH, base, types), Levels(MAX_DEPTH, base, types), base)
  }

  lemma ExplicitEnvOk(base: Level, types: seq<BidiClass>, paragraph: seq<ParaChar>)
    requires Readable(base, types, paragraph)
    ensures EnvOk(ExplicitEnv(base, types, paragraph), ExplicitSequences(base, types), Classes(MAX_DEPTH, base, types))
  {
    LevelsInRange(base, types);
    SequenceLevelsOccur(Classes(MAX_DEPTH, base, types), Levels(MAX_DEPTH, base, types), base);
    var seqs, levels := ExplicitSequences(base, types), Levels(MAX_DEPTH, base, types);
    hide *;
    forall a | 0 <= a < |seqs| ensures 0 <= seqs[a].level <= MAX_DEPTH {
      SequenceLevelInRange(seqs, levels, base, a);
    }
  }

  lemma SequenceLevelInRange(seqs: seq<IsoSeq>, levels: seq<Level>, base: Level, a: nat)
    requires SequencesOk(seqs, levels) && a < |seqs| && seqs[a].level in levels && 0 <= base
    requires forall k :: 0 <= k < |levels| ==> Removed(levels[k]) || base <= levels[k] <= MAX_DEPTH
    ensures 0 <= seqs[a].level <= MAX_DEPTH
  {
    assert SequenceOk(seqs[a], levels);
  }

  function RuleAt(stage: nat): Rule
    requires 1 <= stage <= 10
  {
    if stage == 1 then RuleW1
    else if stage == 2 then RuleW2
    else if stage == 3 then RuleW3
    else if stage == 4 then RuleW4
    else if stage == 5 then RuleW5
    else if stage == 6 then RuleW6
    else if stage == 7 then RuleW7
    else if stage == 8 then RuleN0
    else if stage == 9 then RuleN1
    else RuleN2
  }

  const BRACKET_STAGE: nat := 8

  /** The chain of sequence `a` after the first `stage` of the rules W1-W7, N0, N1, N2. N0 is skipped
      from the first sequence on that has more open brackets than the bracket stack holds. */
  ghost function After(stage: nat, env: Env, seqs: seq<IsoSeq>, types: seq<BidiClass>, a: nat): (cls: seq<BidiClass>)
    requires EnvSized(env, seqs, types) && a < |seqs| && stage <= 10
    ensures |cls| == |seqs[a].indices|
    decreases stage, 0
  {
    if stage == 0 then Gather(types, seqs[a].indices)
    else
      var last := stage - 1;
      var prior := After(last, env, seqs, types, a);
      if stage == BRACKET_STAGE && exists b: nat :: b <= a && Stops(last, env, seqs, types, b) then prior
      else Apply(RuleAt(stage), CtxOf(env, seqs[a]), prior)
  }

  /** The bracket stack overflows on sequence `b` as it is after `stage` rules. */
  ghost predicate Stops(stage: nat, env: Env, seqs: seq<IsoSeq>, types: seq<BidiClass>, b: nat)
    requires EnvSized(env, seqs, types) && b < |seqs| && stage < 10
    decreases stage, 1
  {
    var c, cls := CtxOf(env, seqs[b]), After(stage, env, seqs, types, b);
    c.chars != [] && Overflows(c, cls)
  }

  /** All sequences have been through the first `stage` rules, characters outside them are as after X9. */
  ghost predicate AtStage(stage: nat, env: Env, seqs: seq<IsoSeq>, types: seq<BidiClass>, now: seq<BidiClass>)
    requires EnvSized(env, seqs, types) && stage <= 10
  {
    && |now| == |types|
    && (forall a: nat :: a < |seqs| ==> ChainAt(stage, env, seqs, types, now, a))
    && (forall p: nat :: p < |types| && !InSome(seqs, p) ==> now[p] == types[p])
  }

  ghost predicate ChainAt(stage: nat, env: Env, seqs: seq<IsoSeq>, types: seq<BidiClass>, now: seq<BidiClass>, a: nat)
    requires EnvSized(env, seqs, types) && a < |seqs| && stage <= 10
  {
    |now| == |types| && Gather(now, seqs[a].indices) == After(stage, env, seqs, types, a)
  }

  lemma StageZero(env: Env, seqs: seq<IsoSeq>, types: seq<BidiClass>)
    requires EnvOk(env, seqs, types)
    ensures AtStage(0, env, seqs, types, types)
  {
    hide EnvOk;
  }

  lemma StageStep(stage: nat, rule: Rule, env: Env, seqs: seq<IsoSeq>, types: seq<BidiClass>, now: seq<BidiClass>, next: seq<BidiClass>)
    requires EnvOk(env, seqs, types) && EnvOk(env, seqs, now) && stage < 10 && stage + 1 != BRACKET_STAGE
    requires AtStage(stage, env, seqs, types, now)
    requires rule == RuleAt(stage + 1) && Passed(rule, env, seqs, |seqs|, now, next)
    ensures EnvOk(env, seqs, next) && AtStage(stage + 1, env, seqs, types, next)
  {
    assert EnvSized(env, seqs, types) && EnvSized(env, seqs, now) && |now| == |next| == |types|;
    hide EnvOk, EnvSized, ChainAt, Passed, InSome, RuleAt, AtStage;
    PassKeepsEnv(rule, env, seqs, |seqs|, now, next);
    StageOutside(stage, rule, env, seqs, types, now, next);
    StageChains(stage, rule, env, seqs, types, now, next);
  }

  lemma StageChains(stage: nat, rule: Rule, env: Env, seqs: seq<IsoSeq>, types: seq<BidiClass>, now: seq<BidiClass>, next: seq<BidiClass>)
    requires EnvOk(env, seqs, types) && EnvOk(env, seqs, now) && stage < 10 && stage + 1 != BRACKET_STAGE
    requires AtStage(stage, env, seqs, types, now)
    requires rule == RuleAt(stage + 1) && Passed(rule, env, seqs, |seqs|, now, next)
    requires |next| == |types| && forall p: nat :: p < |types| && !InSome(seqs, p) ==> next[p] == types[p]
    ensures AtStage(stage + 1, env, seqs, types, next)
  {
    assert EnvSized(env, seqs, types);
    hide *;
    var following := stage + 1;
    forall a: nat | a < |seqs| ensures ChainAt(following, env, seqs, types, next, a) {
      StageStepAt(stage, rule, env, seqs, types, now, next, a);
    }
    AllChains(following, env, seqs, types, next);
  }

  lemma AllChains(stage: nat, env: Env, seqs: seq<IsoSeq>, types: seq<BidiClass>, now: seq<BidiClass>)
    requires EnvSized(env, seqs, types) && stage <= 10 && |now| == |types|
    requires forall a: nat :: a < |seqs| ==> ChainAt(stage, env, seqs, types, now, a)
    requires forall p: nat :: p < |types| && !InSome(seqs, p) ==> now[p] == types[p]
    ensures AtStage(stage, env, seqs, types, now)
  {
    hide EnvSized, ChainAt, InSome;
  }

  lemma StageOutside(stage: nat, rule: Rule, env: Env, seqs: seq<IsoSeq>, types: seq<BidiClass>, now: seq<BidiClass>, next: seq<BidiClass>)
    requires EnvSized(env, seqs, types) && EnvSized(env, seqs, now) && stage <= 10
    requires AtStage(stage, env, seqs, types, now) && Passed(rule, env, seqs, |seqs|, now, next)
    ensures forall p: nat :: p < |types| && !InSome(seqs, p) ==> next[p] == types[p]
  {
    hide EnvSized, ChainAt, InSome, Rewritten;
  }

  lemma StageStepAt(stage: nat, rule: Rule, env: Env, seqs: seq<IsoSeq>, types: seq<BidiClass>, now: seq<BidiClass>, next: seq<BidiClass>, a: nat)
    requires EnvOk(env, seqs, types) && EnvOk(env, seqs, now) && stage < 10 && stage + 1 != BRACKET_STAGE && a < |seqs|
    requires AtStage(stage, env, seqs, types, now)
    requires rule == RuleAt(stage + 1) && Passed(rule, env, seqs, |seqs|, now, next)
    ensures ChainAt(stage + 1, env, seqs, types, next, a)
  {
    assert ChainAt(stage, env, seqs, types, now, a) && Rewritten(rule, env, seqs, a, now, next);
    hide EnvOk, EnvSized, AtStage, Passed, Apply, CtxOf, RuleAt;
  }

  lemma StopsIsOverflow(env: Env, seqs: seq<IsoSeq>, types: seq<BidiClass>, now: seq<BidiClass>, b: nat)
    requires EnvOk(env, seqs, types) && EnvOk(env, seqs, now) && b < |seqs|
    requires ChainAt(BRACKET_STAGE - 1, env, seqs, types, now, b)
    ensures Stops(BRACKET_STAGE - 1, env, seqs, types, b) <==> OverflowsAt(env, seqs, now, b)
  {
    hide EnvOk, After, Overflows, CtxOk;
  }

  lemma StageBracketsAt(env: Env, seqs: seq<IsoSeq>, types: seq<BidiClass>, now: seq<BidiClass>, next: seq<BidiClass>, a: nat)
    requires EnvOk(env, seqs, types) && EnvOk(env, seqs, now) && a < |seqs|
    requires AtStage(BRACKET_STAGE - 1, env, seqs, types, now)
    requires Passed(RuleN0, env, seqs, FirstOverflow(env, seqs, now, 0), now, next)
    ensures ChainAt(BRACKET_STAGE, env, seqs, types, next, a)
  {
    FirstOverflowIsFirst(env, seqs, now, 0);
    var m := FirstOverflow(env, seqs, now, 0);
    var stage := BRACKET_STAGE - 1;
    hide EnvOk, After, Stops, FirstOverflow, OverflowsAt, CtxOk, CtxOf, Apply;
    assert ChainAt(stage, env, seqs, types, now, a);
    if a < m {
      NothingStops(env, seqs, types, now, m, a);
      assert Rewritten(RuleN0, env, seqs, a, now, next);
      N0Reaches(env, seqs, types, now, next, a);
    } else {
      assert ChainAt(stage, env, seqs, types, now, m);
      StopsIsOverflow(env, seqs, types, now, m);
      N0Stopped(env, seqs, types, now, next, m, a);
    }
  }

  lemma N0Stopped(env: Env, seqs: seq<IsoSeq>, types: seq<BidiClass>, now: seq<BidiClass>, next: seq<BidiClass>, m: nat, a: nat)
    requires EnvOk(env, seqs, types) && EnvOk(env, seqs, now) && m <= a < |seqs|
    requires ChainAt(BRACKET_STAGE - 1, env, seqs, types, now, a) && Untouched(seqs[a], now, next)
    requires Stops(BRACKET_STAGE - 1, env, seqs, types, m)
    ensures ChainAt(BRACKET_STAGE, env, seqs, types, next, a)
  {
    BracketStep(env, seqs, types, a);
    hide EnvOk, After, Stops, CtxOk, CtxOf, Apply;
    UntouchedGathers(seqs[a], now, next);
  }

  lemma NothingStops(env: Env, seqs: seq<IsoSeq>, types: seq<BidiClass>, now: seq<BidiClass>, m: nat, a: nat)
    requires EnvOk(env, seqs, types) && EnvOk(env, seqs, now) && a < m <= |seqs|
    requires AtStage(BRACKET_STAGE - 1, env, seqs, types, now)
    requires forall d :: 0 <= d < m ==> !OverflowsAt(env, seqs, now, d)
    ensures var stage := BRACKET_STAGE - 1; forall b: nat :: b <= a ==> !Stops(stage, env, seqs, types, b)
  {
    assert EnvSized(env, seqs, types) && EnvSized(env, seqs, now);
    hide EnvOk, ChainAt, Stops, OverflowsAt;
    var stage := BRACKET_STAGE - 1;
    forall b: nat | b <= a ensures !Stops(stage, env, seqs, types, b) {
      assert ChainAt(stage, env, seqs, types, now, b);
      StopsIsOverflow(env, seqs, types, now, b);
    }
  }

  lemma N0Reaches(env: Env, seqs: seq<IsoSeq>, types: seq<BidiClass>, now: seq<BidiClass>, next: seq<BidiClass>, a: nat)
    requires EnvOk(env, seqs, types) && EnvOk(env, seqs, now) && a < |seqs|
    requires ChainAt(BRACKET_STAGE - 1, env, seqs, types, now, a)
    requires Rewritten(RuleN0, env, seqs, a, now, next)
    requires var stage := BRACKET_STAGE - 1; forall b: nat :: b <= a ==> !Stops(stage, env, seqs, types, b)
    ensures ChainAt(BRACKET_STAGE, env, seqs, types, next, a)
  {
    BracketStep(env, seqs, types, a);
    hide EnvOk, After, Stops, CtxOk, CtxOf, Apply;
  }

  lemma StageBrackets(env: Env, seqs: seq<IsoSeq>, types: seq<BidiClass>, now: seq<BidiClass>, next: seq<BidiClass>)
    requires EnvOk(env, seqs, types) && EnvOk(env, seqs, now)
    requires AtStage(BRACKET_STAGE - 1, env, seqs, types, now)
    requires Passed(RuleN0, env, seqs, FirstOverflow(env, seqs, now, 0), now, next)
    ensures EnvOk(env, seqs, next) && AtStage(BRACKET_STAGE, env, seqs, types, next)
  {
    PassKeepsEnv(RuleN0, env, seqs, FirstOverflow(env, seqs, now, 0), now, next);
    hide EnvOk, ChainAt, FirstOverflow, OverflowsAt;
    forall a: nat | a < |seqs| ensures ChainAt(BRACKET_STAGE, env, seqs, types, next, a) {
      StageBracketsAt(env, seqs, types, now, next, a);
    }
  }

  /** I1 and I2 on top of the levels of X1-X9. */
  ghost predicate Raised(levels: seq<Level>, classes: seq<BidiClass>, final: seq<Level>) {
    && |final| == |levels| == |classes|
    && forall p :: 0 <= p < |final| ==>
         final[p] == if Removed(levels[p]) then NO_LEVEL else levels[p] + LevelRaise(levels[p], classes[p])
  }

  /** `classes` and `levels` are what X1-I2 make of the paragraph. */
  ghost predicate IsResolution(base: Level, types: seq<BidiClass>, paragraph: seq<ParaChar>, classes: seq<BidiClass>, levels: seq<Level>)
    requires Readable(base, types, paragraph)
  {
    ExplicitEnvOk(base, types, paragraph);
    var env, seqs := ExplicitEnv(base, types, paragraph), ExplicitSequences(base, types);
    && AtStage(10, env, seqs, Classes(MAX_DEPTH, base, types), classes)
    && Raised(env.levels, classes, levels)
  }

  lemma ResolvedBy(base: Level, types: seq<BidiClass>, paragraph: seq<ParaChar>, classes: seq<BidiClass>, levels: seq<Level>)
    requires Readable(base, types, paragraph)
    requires EnvOk(ExplicitEnv(base, types, paragraph), ExplicitSequences(base, types), Classes(MAX_DEPTH, base, types))
    requires AtStage(BRACKET_STAGE + 2, ExplicitEnv(base, types, paragraph), ExplicitSequences(base, types), Classes(MAX_DEPTH, base, types), classes)
    requires Raised(Levels(MAX_DEPTH, base, types), classes, levels)
    ensures IsResolution(base, types, paragraph, classes, levels)
  {
    hide EnvOk, AtStage, Raised, ExplicitSequences, Levels, Classes;
  }

  lemma StagesAgree(env: Env, seqs: seq<IsoSeq>, types: seq<BidiClass>, stage: nat, now: seq<BidiClass>, now': seq<BidiClass>)
    requires EnvOk(env, seqs, types) && stage <= 10
    requires AtStage(stage, env, seqs, types, now) && AtStage(stage, env, seqs, types, now')
    ensures now == now'
  {
    assert EnvSized(env, seqs, types);
    hide EnvOk, After;
    forall p: nat | p < |types| ensures now[p] == now'[p] {
      if InSome(seqs, p) {
        var a: nat :| a < |seqs| && p in seqs[a].indices;
        var m :| 0 <= m < |seqs[a].indices| && seqs[a].indices[m] == p;
        EnvGivesCtx(env, seqs, types, a);
        assert ChainAt(stage, env, seqs, types, now, a) && ChainAt(stage, env, seqs, types, now', a);
        assert Gather(now, seqs[a].indices)[m] == now[p] && Gather(now', seqs[a].indices)[m] == now'[p];
      }
    }
  }

  /** The paragraph alone decides the result: nothing a reused context held before shows through. */
  lemma ResolutionIsUnique(base: Level, types: seq<BidiClass>, paragraph: seq<ParaChar>,
                           classes: seq<BidiClass>, levels: seq<Level>, classes': seq<BidiClass>, levels': seq<Level>)
    requires Readable(base, types, paragraph)
    requires IsResolution(base, types, paragraph, classes, levels)
    requires IsResolution(base, types, paragraph, classes', levels')
    ensures classes == classes' && levels == levels'
  {
    ExplicitEnvOk(base, types, paragraph);
    var env, seqs, explicit := ExplicitEnv(base, types, paragraph), ExplicitSequences(base, types), Classes(MAX_DEPTH, base, types);
    StagesAgree(env, seqs, explicit, 10, classes, classes');
    assert forall p :: 0 <= p < |levels| ==> levels[p] == levels'[p];
  }

  /** The class of the character at `p` when all stages are through. */
  ghost function LastClass(env: Env, seqs: seq<IsoSeq>, types: seq<BidiClass>, p: nat): BidiClass
    requires EnvSized(env, seqs, types) && p < |types|
  {
    if InSome(seqs, p) then
      var a: nat :| a < |seqs| && p in seqs[a].indices;
      var m: nat :| m < |seqs[a].indices| && seqs[a].indices[m] == p;
      After(BRACKET_STAGE + 2, env, seqs, types, a)[m]
    else types[p]
  }

  lemma LastClassIs(env: Env, seqs: seq<IsoSeq>, types: seq<BidiClass>, a: nat, m: nat)
    requires EnvOk(env, seqs, types) && a < |seqs| && m < |seqs[a].indices|
    ensures EnvSized(env, seqs, types) && seqs[a].indices[m] < |types|
    ensures LastClass(env, seqs, types, seqs[a].indices[m]) == After(BRACKET_STAGE + 2, env, seqs, types, a)[m]
  {
    var p := seqs[a].indices[m];
    assert EnvSized(env, seqs, types) && SequenceOk(seqs[a], env.levels) && InRange(seqs[a], |types|);
    assert p in seqs[a].indices;
    assert InSome(seqs, p);
    hide After, EnvSized, SequenceOk, InSome;
    var b: nat, n: nat :| b < |seqs| && p in seqs[b].indices && n < |seqs[b].indices| && seqs[b].indices[n] == p
                          && LastClass(env, seqs, types, p) == After(BRACKET_STAGE + 2, env, seqs, types, b)[n];
    assert a == b;
    PositionIsUnique(seqs[a], env.levels, m, n);
  }

  lemma PositionIsUnique(s: IsoSeq, levels: seq<Level>, m: nat, n: nat)
    requires SequenceOk(s, levels) && m < |s.indices| && n < |s.indices| && s.indices[m] == s.indices[n]
    ensures m == n
  {
    assert Increasing(s.indices);
  }

  lemma LastStage(env: Env, seqs: seq<IsoSeq>, types: seq<BidiClass>) returns (classes: seq<BidiClass>)
    requires EnvOk(env, seqs, types)
    ensures AtStage(BRACKET_STAGE + 2, env, seqs, types, classes)
  {
    assert EnvSized(env, seqs, types);
    var last := BRACKET_STAGE + 2;
    classes := seq(|types|, p requires 0 <= p < |types| => LastClass(env, seqs, types, p));
    forall a: nat | a < |seqs| ensures ChainAt(last, env, seqs, types, classes, a) {
      assert InRange(seqs[a], |types|);
      hide EnvOk, EnvSized, After, LastClass;
      forall m: nat | m < |seqs[a].indices|
        ensures classes[seqs[a].indices[m]] == After(last, env, seqs, types, a)[m]
      {
        LastClassIs(env, seqs, types, a, m);
      }
    }
    hide EnvSized, After, ChainAt;
    AllChains(last, env, seqs, types, classes);
  }

  /** Every paragraph that the source gets through has a resolution. */
  lemma ResolutionExists(base: Level, types: seq<BidiClass>, paragraph: seq<ParaChar>)
    returns (classes: seq<BidiClass>, levels: seq<Level>)
    requires Readable(base, types, paragraph)
    ensures IsResolution(base, types, paragraph, classes, levels)
  {
    ExplicitEnvOk(base, types, paragraph);
    LevelsInRange(base, types);
    var env, seqs, explicit := ExplicitEnv(base, types, paragraph), ExplicitSequences(base, types), Classes(MAX_DEPTH, base, types);
    var before := env.levels;
    assert |before| == |types| && forall p: nat :: p < |types| ==> Removed(before[p]) || 0 <= before[p] <= MAX_DEPTH;
    hide EnvOk, AtStage, ExplicitSequences, Levels, Classes, LevelRaise;
    classes := LastStage(env, seqs, explicit);
    levels := RaiseAll(before, classes);
  }

  lemma RaiseAll(before: seq<Level>, classes: seq<BidiClass>) returns (levels: seq<Level>)
    requires |before| == |classes|
    requires forall p: nat :: p < |before| ==> Removed(before[p]) || 0 <= before[p] <= MAX_DEPTH
    ensures Raised(before, classes, levels)
  {
    levels := [];
    for n := 0 to |before|
      invariant |levels| == n
      invariant forall p: nat :: p < n ==>
        levels[p] == if Removed(before[p]) then NO_LEVEL else before[p] + LevelRaise(before[p], classes[p])
    {
      levels := levels + [if Removed(before[n]) then NO_LEVEL else before[n] + LevelRaise(before[n], classes[n])];
    }
  }

  ghost predicate Without(cls: seq<BidiClass>, gone: set<BidiClass>) {
    forall k :: 0 <= k < |cls| ==> cls[k] !in gone
  }

  /** Only numbers, L, R, neutrals and removed classes are left. */
  ghost predicate Settled(cls: seq<BidiClass>) {
    forall k :: 0 <= k < |cls| ==> IsFinalClass(cls[k]) || IsNeutral(cls[k]) || IsRemovedClass(cls[k])
  }

  lemma MarksGoInW1(c: Ctx, cls: seq<BidiClass>)
    requires CtxOk(c, cls)
    ensures Without(W1(c, cls), {NSM})
  {
    forall k | 0 <= k < |cls| ensures W1(c, cls)[k] != NSM {
      LastBaseIsKept(c, cls, k);
    }
  }

  lemma WeakRulesSettle(c: Ctx, cls: seq<BidiClass>)
    requires |cls| == |c.levels|
    ensures Without(cls, {NSM}) ==> Without(W2(c, cls), {NSM}) && Without(W3(c, cls), {NSM, AL})
    ensures Without(cls, {NSM, AL}) ==> Without(W4(c, cls), {NSM, AL}) && Without(W5(c, cls), {NSM, AL}) && Settled(W6(c, cls))
    ensures Settled(cls) ==> Settled(W7(c, cls)) && Settled(N1(c, cls))
  {
    hide LastStrong, LastLetter, Between, TouchesEn, PriorDirection, FollowingDirection;
  }

  lemma {:induction false} PairsKeepSettled(c: Ctx, cls: seq<BidiClass>, pairs: seq<Pair>, m: nat)
    requires m <= |pairs| && PairsIn(pairs, |cls|) && |cls| == |c.levels| == |c.orig| && Settled(cls)
    ensures Settled(ResolvePairs(c, cls, pairs, m))
  {
    if m > 0 {
      PairsKeepSettled(c, cls, pairs, m - 1);
      hide PairDirection, MarksFollow;
    }
  }

  lemma N0KeepsSettled(c: Ctx, cls: seq<BidiClass>)
    requires CtxOk(c, cls) && Settled(cls)
    ensures Settled(Apply(RuleN0, c, cls))
  {
    if c.chars != [] && !Overflows(c, cls) {
      assert |cls| == |c.chars|;
      N0IsResolvePairs(c, cls);
      PairsKeepSettled(c, cls, PairsOf(c, cls), |PairsOf(c, cls)|);
    }
  }

  lemma AfterIsOk(stage: nat, env: Env, seqs: seq<IsoSeq>, types: seq<BidiClass>, a: nat)
    requires EnvOk(env, seqs, types) && a < |seqs| && stage <= 10
    ensures CtxOk(CtxOf(env, seqs[a]), After(stage, env, seqs, types, a))
  {
    if stage == 0 {
      EnvGivesCtx(env, seqs, types, a);
    } else {
      AfterIsOk(stage - 1, env, seqs, types, a);
      var c, prior := CtxOf(env, seqs[a]), After(stage - 1, env, seqs, types, a);
      RuleKeepsRemoved(RuleAt(stage), c, prior);
      KeptCtx(c, prior, Apply(RuleAt(stage), c, prior));
      hide EnvOk, Apply, CtxOk, CtxOf, Stops;
    }
  }

  /** One stage is one rule, except that N0 is skipped where the bracket stack has overflowed. */
  lemma AfterStep(stage: nat, env: Env, seqs: seq<IsoSeq>, types: seq<BidiClass>, a: nat)
    requires EnvSized(env, seqs, types) && a < |seqs| && 1 <= stage <= 10
    ensures stage != BRACKET_STAGE ==>
              After(stage, env, seqs, types, a) == Apply(RuleAt(stage), CtxOf(env, seqs[a]), After(stage - 1, env, seqs, types, a))
  {
    hide Apply, Stops;
  }

  lemma BracketStep(env: Env, seqs: seq<IsoSeq>, types: seq<BidiClass>, a: nat)
    requires EnvSized(env, seqs, types) && a < |seqs|
    ensures var prior, last := After(BRACKET_STAGE - 1, env, seqs, types, a), BRACKET_STAGE - 1;
            After(BRACKET_STAGE, env, seqs, types, a) ==
            if exists b: nat :: b <= a && Stops(last, env, seqs, types, b) then prior
            else Apply(RuleN0, CtxOf(env, seqs[a]), prior)
  {
    hide Apply, Stops;
  }

  lemma N2Resolves(c: Ctx, cls: seq<BidiClass>)
    requires |cls| == |c.levels| && Settled(cls)
    ensures Final(N2(c, cls))
  {
  }

  ghost predicate Final(cls: seq<BidiClass>) {
    forall k :: 0 <= k < |cls| ==> IsFinalClass(cls[k]) || IsRemovedClass(cls[k])
  }

  /** What has been cleared away after `stage` rules. */
  ghost predicate Cleared(stage: nat, cls: seq<BidiClass>) {
    if stage <= 2 then Without(cls, {NSM})
    else if stage <= 5 then Without(cls, {NSM, AL})
    else if stage <= 9 then Settled(cls)
    else Final(cls)
  }

  lemma RuleClears(stage: nat, c: Ctx, cls: seq<BidiClass>)
    requires Sized(c, cls) && 2 <= stage <= 10 && stage != BRACKET_STAGE
    requires Cleared(stage - 1, cls)
    ensures Cleared(stage, Apply(RuleAt(stage), c, cls))
  {
    WeakRulesSettle(c, cls);
    if stage == 10 {
      N2Resolves(c, cls);
    }
    hide Without, Settled, Final, W1, W2, W3, W4, W5, W6, W7, N0, N1, N2, Overflows;
  }

  lemma {:induction false} StageClears(stage: nat, env: Env, seqs: seq<IsoSeq>, types: seq<BidiClass>, a: nat)
    requires EnvOk(env, seqs, types) && a < |seqs| && 1 <= stage <= 10
    ensures Cleared(stage, After(stage, env, seqs, types, a))
  {
    var c, prior := CtxOf(env, seqs[a]), After(stage - 1, env, seqs, types, a);
    AfterIsOk(stage - 1, env, seqs, types, a);
    assert Sized(c, prior);
    hide EnvOk, CtxOk, Without, Settled, Final, W1, Apply, After;
    if stage == 1 {
      MarksGoInW1(c, prior);
      FirstRule(env, seqs, types, a);
    } else {
      StageClears(stage - 1, env, seqs, types, a);
      if stage == BRACKET_STAGE {
        BracketStep(env, seqs, types, a);
        N0KeepsSettled(c, prior);
      } else {
        AfterStep(stage, env, seqs, types, a);
        RuleClears(stage, c, prior);
      }
    }
  }

  lemma FirstRule(env: Env, seqs: seq<IsoSeq>, types: seq<BidiClass>, a: nat)
    requires EnvSized(env, seqs, types) && a < |seqs|
    ensures After(1, env, seqs, types, a) == W1(CtxOf(env, seqs[a]), After(0, env, seqs, types, a))
  {
  }

  /** What every paragraph looks like after `resolve`. */
  ghost predicate Resolved(base: Level, types: seq<BidiClass>, classes: seq<BidiClass>, levels: seq<Level>) {
    && |types| == |classes| == |levels|
    && forall p :: 0 <= p < |types| ==> ResolvedAt(base, types[p], classes[p], levels[p])
  }

  ghost predicate ResolvedAt(base: Level, orig: BidiClass, bc: BidiClass, level: Level) {
    && (Removed(level) <==> IsRemovedClass(orig))
    && (!Removed(level) ==>
          && IsFinalClass(bc)
          && base <= level <= MAX_DEPTH + 1
          && (level % 2 == 1 <==> bc == R))
  }

  lemma RaisedLevelFits(base: Level, orig: BidiClass, bc: BidiClass, level: Level)
    requires 0 <= base <= level <= MAX_DEPTH && IsFinalClass(bc) && !IsRemovedClass(orig)
    ensures ResolvedAt(base, orig, bc, level + LevelRaise(level, bc))
  {
    assert RemTwo(level) == level % 2;
  }

  /** After `resolve`, a level is -1 exactly where X9 removes the character; every other character is
      L, R, EN or AN, its level is odd exactly when it is R, and lies between the base level and 126. */
  lemma ResolutionIsResolved(base: Level, types: seq<BidiClass>, paragraph: seq<ParaChar>, classes: seq<BidiClass>, levels: seq<Level>)
    requires Readable(base, types, paragraph)
    requires IsResolution(base, types, paragraph, classes, levels)
    ensures Resolved(base, types, classes, levels)
  {
    ExplicitEnvOk(base, types, paragraph);
    LevelsInRange(base, types);
    var env, seqs, explicit := ExplicitEnv(base, types, paragraph), ExplicitSequences(base, types), Classes(MAX_DEPTH, base, types);
    assert Covers(seqs, env.levels) && Raised(env.levels, classes, levels) && 0 <= base;
    forall p | 0 <= p < |types| ensures Removed(env.levels[p]) <==> IsRemovedClass(types[p]) {
    }
    StagesResolve(base, env, seqs, explicit, classes, levels);
  }

  lemma StagesResolve(base: Level, env: Env, seqs: seq<IsoSeq>, types: seq<BidiClass>, classes: seq<BidiClass>, levels: seq<Level>)
    requires EnvOk(env, seqs, types) && Covers(seqs, env.levels) && 0 <= base
    requires AtStage(10, env, seqs, types, classes) && Raised(env.levels, classes, levels)
    requires forall p :: 0 <= p < |types| ==> Removed(env.levels[p]) || base <= env.levels[p] <= MAX_DEPTH
    ensures Resolved(base, env.orig, classes, levels)
  {
    hide AtStage, LevelRaise;
    forall p | 0 <= p < |types| ensures ResolvedAt(base, env.orig[p], classes[p], levels[p]) {
      if !Removed(env.levels[p]) {
        KeptIsFinal(env, seqs, types, classes, p);
        RaisedLevelFits(base, env.orig[p], classes[p], env.levels[p]);
      }
    }
  }

  lemma KeptIsFinal(env: Env, seqs: seq<IsoSeq>, types: seq<BidiClass>, classes: seq<BidiClass>, p: nat)
    requires EnvOk(env, seqs, types) && p < |types| && !Removed(env.levels[p])
    requires Covers(seqs, env.levels) && AtStage(10, env, seqs, types, classes)
    ensures |classes| == |types| && IsFinalClass(classes[p])
  {
    assert EnvSized(env, seqs, types) && |env.levels| == |types|;
    hide EnvOk, After;
    var a: nat :| a < |seqs| && p in seqs[a].indices;
    StageClears(10, env, seqs, types, a);
    PassKept(env, seqs, types, classes, p);
    assert ChainAt(10, env, seqs, types, classes, a);
    var m :| 0 <= m < |seqs[a].indices| && seqs[a].indices[m] == p;
    assert Gather(classes, seqs[a].indices)[m] == classes[p];
  }

  lemma PassKept(env: Env, seqs: seq<IsoSeq>, types: seq<BidiClass>, classes: seq<BidiClass>, p: nat)
    requires EnvOk(env, seqs, types) && p < |types| && !Removed(env.levels[p])
    requires AtStage(10, env, seqs, types, classes)
    ensures !IsRemovedClass(classes[p])
  {
    hide After;
    if InSome(seqs, p) {
      var a: nat :| a < |seqs| && p in seqs[a].indices;
      var m :| 0 <= m < |seqs[a].indices| && seqs[a].indices[m] == p;
      AfterIsOk(10, env, seqs, types, a);
      assert ChainAt(10, env, seqs, types, classes, a);
      assert Gather(classes, seqs[a].indices)[m] == classes[p];
    }
  }
}
