/** What becomes of the letters that X1-X9 leave in the text. */
module LetterLaws {
  import opened BidiTypes
  import opened Explicit
  import opened Runs
  import opened RunFacts
  import opened Chains
  import opened Weak
  import opened Neutral
  import opened NeutralFacts
  import opened Brackets
  import opened BracketFacts
  import opened Passes
  import opened PairFacts
  import opened Resolution
  import opened Outcome

  // ----- W1-W7 -----

  /** What a character that starts out as `first` is after the first `stage` rules, if it is a letter. */
  predicate LetterIs(stage: nat, first: BidiClass, now: BidiClass) {
    && (first == L ==> now == L)
    && (first == R ==> now == R)
    && (first == AL ==> now == if stage >= 3 then R else AL)
  }

  lemma WeakRuleKeepsLetters(stage: nat, c: Ctx, cls: seq<BidiClass>, k: nat)
    requires 1 <= stage < BRACKET_STAGE && Sized(c, cls) && k < |cls|
    ensures var next := Apply(RuleAt(stage), c, cls)[k];
            && (cls[k] == L || cls[k] == R ==> next == cls[k])
            && (cls[k] == AL ==> next == if stage == 3 then R else AL)
  {
    hide LastBase, LastStrong, Between, TouchesEn, LastLetter;
  }

  lemma {:induction false} WeakRulesKeepLetters(stage: nat, env: Env, seqs: seq<IsoSeq>, types: seq<BidiClass>, a: nat, k: nat, first: BidiClass)
    requires EnvOk(env, seqs, types) && EnvSized(env, seqs, types) && a < |seqs| && k < |seqs[a].indices| && stage < BRACKET_STAGE
    requires first == After(0, env, seqs, types, a)[k]
    ensures LetterIs(stage, first, After(stage, env, seqs, types, a)[k])
    decreases stage
  {
    assert stage < 10;
    hide *;
    if stage == 0 {
      LetterAtFirst(first);
    } else {
      WeakRulesKeepLetters(stage - 1, env, seqs, types, a, k, first);
      WeakStageKeepsLetters(stage, env, seqs, types, a, k, first);
    }
  }

  lemma LetterAtFirst(bc: BidiClass)
    ensures LetterIs(0, bc, bc)
  {
  }

  lemma WeakStageKeepsLetters(stage: nat, env: Env, seqs: seq<IsoSeq>, types: seq<BidiClass>, a: nat, k: nat, first: BidiClass)
    requires EnvOk(env, seqs, types) && EnvSized(env, seqs, types) && a < |seqs| && k < |seqs[a].indices|
    requires 1 <= stage < BRACKET_STAGE && LetterIs(stage - 1, first, After(stage - 1, env, seqs, types, a)[k])
    ensures LetterIs(stage, first, After(stage, env, seqs, types, a)[k])
  {
    AfterIsOk(stage - 1, env, seqs, types, a);
    assert Sized(CtxOf(env, seqs[a]), After(stage - 1, env, seqs, types, a));
    hide EnvOk, EnvSized, CtxOf, After, Apply, CtxOk, Sized;
    AfterStep(stage, env, seqs, types, a);
    WeakRuleKeepsLetters(stage, CtxOf(env, seqs[a]), After(stage - 1, env, seqs, types, a), k);
  }

  /** The same of the chains of a text. */
  lemma LettersAtBrackets(base: Level, types: seq<BidiClass>, paragraph: seq<ParaChar>, a: nat, k: nat)
    requires Readable(base, types, paragraph) && a < |ExplicitSequences(base, types)|
    requires k < |ExplicitSequences(base, types)[a].indices|
    ensures ExplicitSequences(base, types)[a].indices[k] < |Classes(MAX_DEPTH, base, types)| == |types|
    ensures LetterIs(BRACKET_STAGE - 1, Classes(MAX_DEPTH, base, types)[ExplicitSequences(base, types)[a].indices[k]],
                     ChainClasses(base, types, paragraph, a, BRACKET_STAGE - 1)[k])
    ensures k < |ChainOf(base, types, paragraph, a).orig|
    ensures ChainOf(base, types, paragraph, a).orig[k] == types[ExplicitSequences(base, types)[a].indices[k]]
  {
    ExplicitEnvOk(base, types, paragraph);
    var env, seqs, explicit := ExplicitEnv(base, types, paragraph), ExplicitSequences(base, types), Classes(MAX_DEPTH, base, types);
    WeakRulesKeepLetters(BRACKET_STAGE - 1, env, seqs, explicit, a, k, After(0, env, seqs, explicit, a)[k]);
    assert After(0, env, seqs, explicit, a) == Gather(explicit, seqs[a].indices);
    hide EnvOk, After, LetterIs, Classes, ExplicitSequences, Levels;
  }

  // ----- N0 -----

  lemma BracketIsNoLetter(c: Ctx, cls: seq<BidiClass>, pairs: seq<Pair>, i: nat)
    requires |cls| == |c.chars| && BracketPairs(c, cls, pairs, |cls|) && i < |pairs|
    ensures pairs[i].opening < pairs[i].closing < |cls| && cls[pairs[i].opening] == cls[pairs[i].closing] == ON
  {
    assert IsBracketPair(c, cls, pairs[i], |cls|);
  }

  /** A letter that is no combining mark is not touched. */
  lemma {:induction false} PairsSpareLetters(c: Ctx, cls: seq<BidiClass>, pairs: seq<Pair>, m: nat, k: nat)
    requires |cls| == |c.levels| == |c.orig| == |c.chars| && PairsIn(pairs, |cls|) && BracketPairs(c, cls, pairs, |cls|)
    requires m <= |pairs| && k < |cls| && cls[k] != ON && c.orig[k] != NSM
    ensures ResolvePairs(c, cls, pairs, m)[k] == cls[k]
  {
    if m > 0 {
      PairsSpareLetters(c, cls, pairs, m - 1, k);
      hide ResolvePair, PairDirection, BracketPairs;
      BracketIsNoLetter(c, cls, pairs, m - 1);
      PairSetsOwn(c, ResolvePairs(c, cls, pairs, m - 1), pairs[m - 1], k);
    }
  }

  lemma N0SparesLetters(c: Ctx, cls: seq<BidiClass>, k: nat)
    requires CtxOk(c, cls) && k < |cls| && cls[k] != ON && c.orig[k] != NSM
    ensures Apply(RuleN0, c, cls)[k] == cls[k]
  {
    assert Sized(c, cls);
    if c.chars != [] && !Overflows(c, cls) {
      hide CtxOk, Overflows, PairScan, ResolvePairs, N0;
      PairsSpareLetters(c, cls, PairsOf(c, cls), |PairsOf(c, cls)|, k);
      N0IsResolvePairs(c, cls);
    }
  }

  /** N0 either is applied to the chain or leaves it alone. */
  lemma AppliedOrNot(base: Level, types: seq<BidiClass>, paragraph: seq<ParaChar>, a: nat)
    requires Readable(base, types, paragraph) && a < |ExplicitSequences(base, types)|
    ensures var c, cls := ChainOf(base, types, paragraph, a), ChainClasses(base, types, paragraph, a, BRACKET_STAGE - 1);
            ChainClasses(base, types, paragraph, a, BRACKET_STAGE)
            == if ReachedByN0(base, types, paragraph, a) then Apply(RuleN0, c, cls) else cls
  {
    hide ChainOf, ChainClasses, Apply, OverflowsIn, Readable, ExplicitSequences;
    if ReachedByN0(base, types, paragraph, a) {
      ReachedIsApplied(base, types, paragraph, a);
    } else {
      var b: nat :| b <= a && OverflowsIn(base, types, paragraph, b);
      SkippedAfter(base, types, paragraph, a, b, BRACKET_STAGE);
    }
  }

  /** Where a kept character stands. */
  lemma PlaceOf(base: Level, types: seq<BidiClass>, p: nat) returns (a: nat, k: nat)
    requires Completes(MAX_DEPTH, base, types) && p < |types|
    requires p < |Classes(MAX_DEPTH, base, types)| && !IsRemovedClass(Classes(MAX_DEPTH, base, types)[p])
    ensures a < |ExplicitSequences(base, types)| && k < |ExplicitSequences(base, types)[a].indices|
    ensures ExplicitSequences(base, types)[a].indices[k] == p
  {
    LevelsInRange(base, types);
    var seqs := ExplicitSequences(base, types);
    assert Covers(seqs, Levels(MAX_DEPTH, base, types));
    hide Levels, Classes, ExplicitSequences, Completes;
    a :| a < |seqs| && p in seqs[a].indices;
    k :| k < |seqs[a].indices| && seqs[a].indices[k] == p;
  }

  // ----- the result -----

  /** A letter that is no combining mark ends as it comes out of X1-X9, an Arabic one as R. */
  lemma LettersInResult(base: Level, types: seq<BidiClass>, paragraph: seq<ParaChar>, classes: seq<BidiClass>, levels: seq<Level>, p: nat)
    requires Readable(base, types, paragraph) && IsResolution(base, types, paragraph, classes, levels)
    requires p < |types| && types[p] != NSM
    ensures |classes| == |Classes(MAX_DEPTH, base, types)| == |types|
    ensures Classes(MAX_DEPTH, base, types)[p] == L ==> classes[p] == L
    ensures Classes(MAX_DEPTH, base, types)[p] == R || Classes(MAX_DEPTH, base, types)[p] == AL ==> classes[p] == R
  {
    LevelsInRange(base, types);
    SameSize(base, types, paragraph, classes, levels);
    var bc := Classes(MAX_DEPTH, base, types)[p];
    hide *;
    if bc == L || bc == R || bc == AL {
      IsNoRemoved(bc);
      var a, k := PlaceOf(base, types, p);
      LettersAtBrackets(base, types, paragraph, a, k);
      AppliedOrNot(base, types, paragraph, a);
      var c, cls := ChainOf(base, types, paragraph, a), ChainClasses(base, types, paragraph, a, BRACKET_STAGE - 1);
      LetterBecomes(bc, cls[k]);
      N0SparesLetters(c, cls, k);
      FinalClassOf(base, types, paragraph, classes, levels, a, k);
      KeepsLetter(c, ChainClasses(base, types, paragraph, a, BRACKET_STAGE), k);
    }
  }

  lemma KeepsLetter(c: Ctx, cls: seq<BidiClass>, k: nat)
    requires CtxOk(c, cls) && k < |cls| && (cls[k] == L || cls[k] == R)
    ensures N2(c, N1(c, cls))[k] == cls[k]
  {
    LetterIsNoNeutral(cls[k]);
    hide CtxOk, N1, N2;
    OthersKeepTheirClass(c, cls, k);
  }

  lemma LetterBecomes(first: BidiClass, now: BidiClass)
    requires LetterIs(BRACKET_STAGE - 1, first, now) && (first == L || first == R || first == AL)
    ensures now == if first == L then L else R
  {
  }

  lemma IsNoRemoved(bc: BidiClass)
    requires bc == L || bc == R || bc == AL
    ensures !IsRemovedClass(bc)
  {
  }

  lemma SameSize(base: Level, types: seq<BidiClass>, paragraph: seq<ParaChar>, classes: seq<BidiClass>, levels: seq<Level>)
    requires Readable(base, types, paragraph) && IsResolution(base, types, paragraph, classes, levels)
    ensures |classes| == |types|
  {
    LevelsInRange(base, types);
    hide AtStage, Levels;
  }

  // ----- combining marks that an override has made letters -----

  lemma StepForMark(c: Ctx, cls: seq<BidiClass>, p: Pair, k: nat)
    requires p.opening < p.closing < |cls| == |c.levels| == |c.orig| && k < |cls|
    ensures |ResolvePair(c, cls, p)| == |cls|
    ensures ResolvePair(c, cls, p)[k]
            == if OfPair(c, p, k) && PairDirection(c, cls, p).Some? then PairDirection(c, cls, p).value.AsClass() else cls[k]
  {
    MarksAreBehind(c, p.opening, k);
    MarksAreBehind(c, p.closing, k);
    hide MarksFollow, MarkBehind, PairDirection;
  }

  /** Only the pair `i` reaches the mark at `k`. */
  ghost predicate OnlyReachedBy(c: Ctx, pairs: seq<Pair>, i: nat, k: nat)
    requires |c.levels| == |c.orig|
  {
    forall j: nat :: j < |pairs| && j != i ==> !OfPair(c, pairs[j], k)
  }

  lemma {:induction false} MarkAfterPairs(c: Ctx, cls: seq<BidiClass>, pairs: seq<Pair>, i: nat, m: nat, k: nat)
    requires |cls| == |c.levels| == |c.orig| && PairsIn(pairs, |cls|) && i < |pairs| && m <= |pairs| && k < |cls|
    requires OnlyReachedBy(c, pairs, i, k)
    ensures ResolvePairs(c, cls, pairs, m)[k]
            == if OfPair(c, pairs[i], k) && PairClass(c, cls, pairs, i, m) != ON then PairClass(c, cls, pairs, i, m) else cls[k]
  {
    hide OfPair, PairDirection, ResolvePair;
    if m > 0 {
      MarkAfterPairs(c, cls, pairs, i, m - 1, k);
      StepForMark(c, ResolvePairs(c, cls, pairs, m - 1), pairs[m - 1], k);
    }
  }

  lemma {:induction false} MarkApart(c: Ctx, cls: seq<BidiClass>, pairs: seq<Pair>, m: nat, k: nat)
    requires |cls| == |c.levels| == |c.orig| && PairsIn(pairs, |cls|) && m <= |pairs| && k < |cls|
    requires forall j: nat :: j < |pairs| ==> !OfPair(c, pairs[j], k)
    ensures ResolvePairs(c, cls, pairs, m)[k] == cls[k]
  {
    hide OfPair, PairDirection, ResolvePair;
    if m > 0 {
      MarkApart(c, cls, pairs, m - 1, k);
      StepForMark(c, ResolvePairs(c, cls, pairs, m - 1), pairs[m - 1], k);
    }
  }

  /** The mark at `k` follows the opening or the closing bracket of the pair. */
  ghost predicate Follows(c: Ctx, p: Pair, k: nat)
    requires |c.levels| == |c.orig|
  {
    MarkBehind(c, p.opening, k) || MarkBehind(c, p.closing, k)
  }

  lemma OneBracketBefore(c: Ctx, b: nat, b': nat, k: nat)
    requires |c.levels| == |c.orig| && MarkBehind(c, b, k) && MarkBehind(c, b', k)
    requires c.orig[b] != NSM && c.orig[b'] != NSM && !Removed(c.levels[b]) && !Removed(c.levels[b'])
    ensures b == b'
  {
  }

  lemma BracketStands(c: Ctx, cls: seq<BidiClass>, pairs: seq<Pair>, i: nat)
    requires CtxOk(c, cls) && |cls| == |c.chars| && BracketPairs(c, cls, pairs, |cls|) && BracketsAreNoMarks(c) && i < |pairs|
    ensures var p := pairs[i];
            && p.opening < p.closing < |cls| == |c.orig| == |c.levels|
            && cls[p.opening] == cls[p.closing] == ON
            && c.orig[p.opening] != NSM && c.orig[p.closing] != NSM
            && !Removed(c.levels[p.opening]) && !Removed(c.levels[p.closing])
  {
    assert IsBracketPair(c, cls, pairs[i], |cls|);
  }

  lemma FollowingIsOfPair(c: Ctx, cls: seq<BidiClass>, pairs: seq<Pair>, i: nat, k: nat)
    requires CtxOk(c, cls) && |cls| == |c.chars| && BracketPairs(c, cls, pairs, |cls|) && BracketsAreNoMarks(c) && i < |pairs|
    requires k < |cls| && cls[k] != ON
    ensures |c.levels| == |c.orig| && (OfPair(c, pairs[i], k) <==> Follows(c, pairs[i], k))
  {
    BracketStands(c, cls, pairs, i);
    var p := pairs[i];
    hide CtxOk, BracketPairs, BracketsAreNoMarks;
  }

  lemma OnlyOneFollowed(c: Ctx, cls: seq<BidiClass>, pairs: seq<Pair>, i: nat, j: nat, k: nat)
    requires CtxOk(c, cls) && |cls| == |c.chars| && BracketPairs(c, cls, pairs, |cls|) && BracketsAreNoMarks(c)
    requires Apart(pairs) && i < |pairs| && j < |pairs| && |c.levels| == |c.orig|
    requires Follows(c, pairs[i], k) && Follows(c, pairs[j], k)
    ensures i == j
  {
    BracketStands(c, cls, pairs, i);
    BracketStands(c, cls, pairs, j);
    var b := if MarkBehind(c, pairs[i].opening, k) then pairs[i].opening else pairs[i].closing;
    var b' := if MarkBehind(c, pairs[j].opening, k) then pairs[j].opening else pairs[j].closing;
    hide CtxOk, BracketPairs, BracketsAreNoMarks, MarkBehind, Apart;
    OneBracketBefore(c, b, b', k);
    if i != j {
      OtherPair(pairs, i, j);
    }
  }

  /** N0 gives the mark the class of the bracket it follows, if the pair of that got one. */
  lemma MarkFollowing(c: Ctx, cls: seq<BidiClass>, i: nat, k: nat)
    requires CtxOk(c, cls) && |cls| == |c.chars| && !Overflows(c, cls) && BracketsAreNoMarks(c)
    requires k < |cls| && cls[k] != ON && i < |PairsOf(c, cls)| && |c.levels| == |c.orig| && Follows(c, PairsOf(c, cls)[i], k)
    ensures var got := N0(c, cls)[PairsOf(c, cls)[i].opening];
            N0(c, cls)[k] == if got == L || got == R then got else cls[k]
  {
    var pairs, all := PairsOf(c, cls), |PairsOf(c, cls)|;
    PairsOfIsBD16(c, cls);
    N0IsAll(c, cls);
    hide *;
    forall j: nat | j < |pairs| && j != i ensures !OfPair(c, pairs[j], k) {
      FollowingIsOfPair(c, cls, pairs, j, k);
      if Follows(c, pairs[j], k) {
        OnlyOneFollowed(c, cls, pairs, i, j, k);
      }
    }
    FollowingIsOfPair(c, cls, pairs, i, k);
    ReachedOnly(c, pairs, i, k);
    MarkAfterPairs(c, cls, pairs, i, all, k);
    BothBracketsAgree(c, cls, i);
    PairClassIsLetter(c, cls, pairs, i, all);
    LettersOnly(PairClass(c, cls, pairs, i, all));
  }

  lemma FollowingOne(c: Ctx, cls: seq<BidiClass>, i: nat, j: nat, k: nat)
    requires CtxOk(c, cls) && |cls| == |c.chars| && !Overflows(c, cls) && BracketsAreNoMarks(c) && |c.levels| == |c.orig|
    requires i < |PairsOf(c, cls)| && j < |PairsOf(c, cls)| && Follows(c, PairsOf(c, cls)[i], k) && Follows(c, PairsOf(c, cls)[j], k)
    ensures i == j
  {
    PairsOfIsBD16(c, cls);
    hide *;
    OnlyOneFollowed(c, cls, PairsOf(c, cls), i, j, k);
  }

  lemma MarkAlone(c: Ctx, cls: seq<BidiClass>, k: nat)
    requires CtxOk(c, cls) && |cls| == |c.chars| && !Overflows(c, cls) && BracketsAreNoMarks(c) && |c.levels| == |c.orig|
    requires k < |cls| && cls[k] != ON && forall i: nat :: i < |PairsOf(c, cls)| ==> !Follows(c, PairsOf(c, cls)[i], k)
    ensures N0(c, cls)[k] == cls[k]
  {
    var pairs, all := PairsOf(c, cls), |PairsOf(c, cls)|;
    N0IsAll(c, cls);
    hide *;
    forall j: nat | j < |pairs| ensures !OfPair(c, pairs[j], k) {
      FollowingIsOfPair(c, cls, pairs, j, k);
    }
    MarkApart(c, cls, pairs, all, k);
  }

  /** The mark at `k` follows a bracket of a pair whose brackets are of class `bc` in `out`. */
  ghost predicate FollowsOf(c: Ctx, cls: seq<BidiClass>, out: seq<BidiClass>, k: nat, bc: BidiClass)
    requires |cls| == |c.chars| == |out| && !Overflows(c, cls) && |c.levels| == |c.orig|
  {
    exists i: nat :: i < |PairsOf(c, cls)| && Follows(c, PairsOf(c, cls)[i], k) && out[PairsOf(c, cls)[i].opening] == bc
  }

  /** What N0 makes of a mark that is a letter. */
  lemma MarkAfterN0(c: Ctx, cls: seq<BidiClass>, k: nat)
    requires CtxOk(c, cls) && |cls| == |c.chars| && !Overflows(c, cls) && BracketsAreNoMarks(c)
    requires k < |cls| && (cls[k] == L || cls[k] == R) && |c.levels| == |c.orig|
    ensures var other := if cls[k] == L then R else L;
            N0(c, cls)[k] == if FollowsOf(c, cls, N0(c, cls), k, other) then other else cls[k]
  {
    var pairs, out := PairsOf(c, cls), N0(c, cls);
    var other := if cls[k] == L then R else L;
    hide CtxOk, Overflows, BracketsAreNoMarks, PairsOf, N0, Follows, BracketPairs;
    if i: nat :| i < |pairs| && Follows(c, pairs[i], k) {
      MarkFollowing(c, cls, i, k);
      if FollowsOf(c, cls, out, k, other) {
        var j: nat :| j < |pairs| && Follows(c, pairs[j], k) && out[pairs[j].opening] == other;
        FollowingOne(c, cls, i, j, k);
      }
    } else {
      MarkAlone(c, cls, k);
    }
  }

  lemma N0IsAll(c: Ctx, cls: seq<BidiClass>)
    requires CtxOk(c, cls) && |cls| == |c.chars| && !Overflows(c, cls)
    ensures |c.levels| == |c.orig| == |cls| && Sized(c, cls)
    ensures N0(c, cls) == ResolvePairs(c, cls, PairsOf(c, cls), |PairsOf(c, cls)|)
  {
    hide Overflows, PairsOf, ResolvePairs;
  }

  lemma ReachedOnly(c: Ctx, pairs: seq<Pair>, i: nat, k: nat)
    requires |c.levels| == |c.orig| && forall j: nat :: j < |pairs| && j != i ==> !OfPair(c, pairs[j], k)
    ensures OnlyReachedBy(c, pairs, i, k)
  {
  }

  lemma LettersOnly(bc: BidiClass)
    ensures IsLetter(bc) <==> bc == L || bc == R
  {
  }

  /** The mark at `k` of sequence `a` follows a bracket of a pair that N0 gives this class. */
  ghost predicate FollowsBracketOf(base: Level, types: seq<BidiClass>, paragraph: seq<ParaChar>, a: nat, k: nat, bc: BidiClass)
    requires Readable(base, types, paragraph) && a < |ExplicitSequences(base, types)|
  {
    var c, cls := ChainOf(base, types, paragraph, a), ChainClasses(base, types, paragraph, a, BRACKET_STAGE - 1);
    && ReachedByN0(base, types, paragraph, a) && |c.chars| == |cls| && !Overflows(c, cls) && |c.levels| == |c.orig|
    && FollowsOf(c, cls, ChainClasses(base, types, paragraph, a, BRACKET_STAGE), k, bc)
  }

  /** The part of that which concerns the chain. */
  ghost predicate FollowsInChain(c: Ctx, cls: seq<BidiClass>, out: seq<BidiClass>, k: nat, bc: BidiClass) {
    |c.chars| == |cls| == |out| && !Overflows(c, cls) && |c.levels| == |c.orig| && FollowsOf(c, cls, out, k, bc)
  }

  lemma FollowsBracketIff(base: Level, types: seq<BidiClass>, paragraph: seq<ParaChar>, a: nat, k: nat, bc: BidiClass)
    requires Readable(base, types, paragraph) && a < |ExplicitSequences(base, types)|
    ensures FollowsBracketOf(base, types, paragraph, a, k, bc)
            <==> ReachedByN0(base, types, paragraph, a)
                 && FollowsInChain(ChainOf(base, types, paragraph, a), ChainClasses(base, types, paragraph, a, BRACKET_STAGE - 1),
                                   ChainClasses(base, types, paragraph, a, BRACKET_STAGE), k, bc)
  {
    hide ChainOf, ChainClasses, Readable, ExplicitSequences, CtxOk, Overflows, PairsOf, ReachedByN0, FollowsOf;
  }

  lemma MarkThroughN0(c: Ctx, cls: seq<BidiClass>, k: nat)
    requires CtxOk(c, cls) && Sized(c, cls) && BracketsAreNoMarks(c) && |c.levels| == |c.orig|
    requires c.chars != [] ==> |c.chars| == |cls| && !Overflows(c, cls)
    requires k < |cls| && (cls[k] == L || cls[k] == R)
    ensures var other := if cls[k] == L then R else L;
            Apply(RuleN0, c, cls)[k] == if FollowsInChain(c, cls, Apply(RuleN0, c, cls), k, other) then other else cls[k]
  {
    hide CtxOk, Sized, Overflows, PairsOf, N0, BracketsAreNoMarks, FollowsOf;
    if c.chars != [] {
      MarkAfterN0(c, cls, k);
    }
  }

  lemma MarkAtN0(base: Level, types: seq<BidiClass>, paragraph: seq<ParaChar>, a: nat, k: nat)
    requires Readable(base, types, paragraph) && a < |ExplicitSequences(base, types)|
    requires paragraph == [] || TableHasNoMarks(paragraph, types)
    requires k < |ExplicitSequences(base, types)[a].indices|
    requires var bc := ChainClasses(base, types, paragraph, a, BRACKET_STAGE - 1)[k]; bc == L || bc == R
    ensures var bc, out := ChainClasses(base, types, paragraph, a, BRACKET_STAGE - 1)[k], ChainClasses(base, types, paragraph, a, BRACKET_STAGE)[k];
            var other := if bc == L then R else L;
            out == if FollowsBracketOf(base, types, paragraph, a, k, other) then other else bc
  {
    var c, cls := ChainOf(base, types, paragraph, a), ChainClasses(base, types, paragraph, a, BRACKET_STAGE - 1);
    hide *;
    AppliedOrNot(base, types, paragraph, a);
    CharsOfChain(base, types, paragraph, a);
    FollowsBracketIff(base, types, paragraph, a, k, if cls[k] == L then R else L);
    if ReachedByN0(base, types, paragraph, a) {
      MarkThroughN0(c, cls, k);
    }
  }

  lemma CharsOfChain(base: Level, types: seq<BidiClass>, paragraph: seq<ParaChar>, a: nat)
    requires Readable(base, types, paragraph) && a < |ExplicitSequences(base, types)|
    requires paragraph == [] || TableHasNoMarks(paragraph, types)
    ensures var c, cls := ChainOf(base, types, paragraph, a), ChainClasses(base, types, paragraph, a, BRACKET_STAGE - 1);
            && CtxOk(c, cls) && Sized(c, cls) && BracketsAreNoMarks(c) && |c.levels| == |c.orig|
            && (ReachedByN0(base, types, paragraph, a) && c.chars != [] ==> |c.chars| == |cls| && !Overflows(c, cls))
  {
    ReachedIsUsed(base, types, paragraph, a);
    hide ChainClasses, ReachedByN0, ExplicitSequences, Readable;
    if paragraph != [] {
      ChainHasNoMarks(base, types, paragraph, a);
    }
  }

  lemma ReachedIsUsed(base: Level, types: seq<BidiClass>, paragraph: seq<ParaChar>, a: nat)
    requires Readable(base, types, paragraph) && a < |ExplicitSequences(base, types)|
    ensures var c, cls := ChainOf(base, types, paragraph, a), ChainClasses(base, types, paragraph, a, BRACKET_STAGE - 1);
            Sized(c, cls) && (ReachedByN0(base, types, paragraph, a) && c.chars != [] ==> !Overflows(c, cls))
  {
    hide ChainClasses, ChainOf, ExplicitSequences, Readable;
    if ReachedByN0(base, types, paragraph, a) {
      assert !OverflowsIn(base, types, paragraph, a);
    }
  }

  /** A combining mark that an override makes a letter keeps that direction in the result exactly when it does
      not follow a bracket whose pair is given the other one. */
  lemma OverriddenMarkInResult(base: Level, types: seq<BidiClass>, paragraph: seq<ParaChar>, classes: seq<BidiClass>, levels: seq<Level>, a: nat, k: nat)
    requires Readable(base, types, paragraph) && IsResolution(base, types, paragraph, classes, levels)
    requires paragraph == [] || TableHasNoMarks(paragraph, types)
    requires a < |ExplicitSequences(base, types)| && k < |ExplicitSequences(base, types)[a].indices|
    requires ExplicitSequences(base, types)[a].indices[k] < |Classes(MAX_DEPTH, base, types)|
    requires var bc := Classes(MAX_DEPTH, base, types)[ExplicitSequences(base, types)[a].indices[k]]; bc == L || bc == R
    ensures var p := ExplicitSequences(base, types)[a].indices[k];
            && p < |classes|
            && var bc := Classes(MAX_DEPTH, base, types)[p];
               var other := if bc == L then R else L;
               && (classes[p] == bc <==> !FollowsBracketOf(base, types, paragraph, a, k, other))
               && (classes[p] != bc ==> classes[p] == other)
  {
    var bc := Classes(MAX_DEPTH, base, types)[ExplicitSequences(base, types)[a].indices[k]];
    var c, cls, out := ChainOf(base, types, paragraph, a), ChainClasses(base, types, paragraph, a, BRACKET_STAGE - 1),
                       ChainClasses(base, types, paragraph, a, BRACKET_STAGE);
    hide *;
    LettersAtBrackets(base, types, paragraph, a, k);
    LetterBecomes(bc, cls[k]);
    MarkAtN0(base, types, paragraph, a, k);
    FinalClassOf(base, types, paragraph, classes, levels, a, k);
    KeepsLetter(c, out, k);
  }

  // ----- W3 and W6 -----

  lemma ChainStep(base: Level, types: seq<BidiClass>, paragraph: seq<ParaChar>, a: nat, stage: nat)
    requires Readable(base, types, paragraph) && a < |ExplicitSequences(base, types)| && 1 <= stage < BRACKET_STAGE
    ensures Sized(ChainOf(base, types, paragraph, a), ChainClasses(base, types, paragraph, a, stage - 1))
    ensures ChainClasses(base, types, paragraph, a, stage)
            == Apply(RuleAt(stage), ChainOf(base, types, paragraph, a), ChainClasses(base, types, paragraph, a, stage - 1))
  {
    ExplicitEnvOk(base, types, paragraph);
    var env, seqs, explicit := ExplicitEnv(base, types, paragraph), ExplicitSequences(base, types), Classes(MAX_DEPTH, base, types);
    AfterStep(stage, env, seqs, explicit, a);
    hide After, Apply, RuleAt, CtxOf, ExplicitEnv, ExplicitSequences, Classes, SequencesOk;
  }

  lemma WithoutArabic(c: Ctx, cls: seq<BidiClass>, k: nat, stage: nat)
    requires Sized(c, cls) && k < |cls| && stage == 3
    ensures Apply(RuleAt(stage), c, cls)[k] == if cls[k] == AL then R else cls[k]
  {
  }

  lemma WithoutSeparators(c: Ctx, cls: seq<BidiClass>, k: nat, stage: nat)
    requires Sized(c, cls) && k < |cls| && stage == 6
    ensures Apply(RuleAt(stage), c, cls)[k] == if cls[k] == ES || cls[k] == CS || cls[k] == ET then ON else cls[k]
  {
  }

  /** W3 makes every AL an R and changes nothing else. */
  lemma ArabicBecomesR(base: Level, types: seq<BidiClass>, paragraph: seq<ParaChar>, a: nat, k: nat, w3: nat)
    requires Readable(base, types, paragraph) && a < |ExplicitSequences(base, types)| && w3 == 3
    requires k < |ExplicitSequences(base, types)[a].indices|
    ensures var before, after := ChainClasses(base, types, paragraph, a, w3 - 1)[k], ChainClasses(base, types, paragraph, a, w3)[k];
            after == if before == AL then R else before
  {
    var c, cls := ChainOf(base, types, paragraph, a), ChainClasses(base, types, paragraph, a, w3 - 1);
    assert 1 <= w3 < BRACKET_STAGE;
    hide *;
    ChainStep(base, types, paragraph, a, w3);
    WithoutArabic(c, cls, k, w3);
  }

  /** W6 makes every ES, CS and ET that is left an ON and changes nothing else. */
  lemma SeparatorsBecomeNeutral(base: Level, types: seq<BidiClass>, paragraph: seq<ParaChar>, a: nat, k: nat, w6: nat)
    requires Readable(base, types, paragraph) && a < |ExplicitSequences(base, types)| && w6 == 6
    requires k < |ExplicitSequences(base, types)[a].indices|
    ensures var before, after := ChainClasses(base, types, paragraph, a, w6 - 1)[k], ChainClasses(base, types, paragraph, a, w6)[k];
            after == if before == ES || before == CS || before == ET then ON else before
  {
    var c, cls := ChainOf(base, types, paragraph, a), ChainClasses(base, types, paragraph, a, w6 - 1);
    assert 1 <= w6 < BRACKET_STAGE;
    hide *;
    ChainStep(base, types, paragraph, a, w6);
    WithoutSeparators(c, cls, k, w6);
  }
}
