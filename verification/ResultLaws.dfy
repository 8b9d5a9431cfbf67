/** What `resolve` makes of brackets and levels, without the words of the rules' own definitions. */
module ResultLaws {
  import opened BidiTypes
  import opened Isolates
  import opened Explicit
  import opened OpenStacks
  import opened Chains
  import opened Neutral
  import opened NeutralFacts
  import opened Brackets
  import opened BracketFacts
  import opened PairFacts
  import opened Resolution
  import opened Outcome

  // ----- the base level -----

  /** P2 and P3: with an automatic hint the first strong character outside isolates decides, L for 0 and R or
      AL for 1; without one, and with a fixed hint, the hint decides. */
  lemma BaseLevelIs(hint: Hint, types: seq<BidiClass>)
    ensures hint == HintLtr ==> BaseLevelFor(hint, types) == 0
    ensures hint == HintRtl ==> BaseLevelFor(hint, types) == 1
    ensures hint == HintAutoLtr || hint == HintAutoRtl ==>
              && (forall k: nat :: FirstStrong(types, 0, k) ==>
                    && k < |types| && (types[k] == L || types[k] == R || types[k] == AL)
                    && BaseLevelFor(hint, types) == if types[k] == L then 0 else 1)
              && ((forall k: nat :: !FirstStrong(types, 0, k)) ==>
                    BaseLevelFor(hint, types) == if hint == HintAutoLtr then 0 else 1)
  {
    if hint == HintAutoLtr || hint == HintAutoRtl {
      var fallback := if hint == HintAutoLtr then Ltr else Rtl;
      AutoLevel(types, fallback);
      hide ScanLevel, FirstStrong, FirstStrongLevel;
    }
  }

  lemma AutoLevel(types: seq<BidiClass>, fallback: Direction)
    ensures var level := ScanLevel(types, 0, 0, false, fallback);
            && (forall k: nat :: FirstStrong(types, 0, k) ==>
                  k < |types| && (types[k] == L || types[k] == R || types[k] == AL) && level == if types[k] == L then 0 else 1)
            && ((forall k: nat :: !FirstStrong(types, 0, k)) ==> level == if fallback == Ltr then 0 else 1)
  {
    var level, n := ScanLevel(types, 0, 0, false, fallback), |types|;
    NoneYet(types);
    ScanIsP2P3(types, 0, 0, [], fallback);
    hide ScanLevel, Candidate, NoCandidateBefore, OpenList, FirstStrong;
    forall k: nat | FirstStrong(types, 0, k)
      ensures k < n && (types[k] == L || types[k] == R || types[k] == AL) && level == if types[k] == L then 0 else 1
    {
      FirstIsStrong(types, 0, k);
      FirstDecides(types, 0, n, fallback, level, k);
    }
    if forall k: nat :: !FirstStrong(types, 0, k) {
      if !NoCandidateBefore(types, 0, n) {
        var k := SomeFirst(types, 0, n);
      }
    }
  }

  lemma NoneYet(types: seq<BidiClass>)
    ensures OpenList(types, 0, 0, []) && NoCandidateBefore(types, 0, 0)
  {
  }

  // ----- brackets -----

  lemma PairPlaces(base: Level, types: seq<BidiClass>, paragraph: seq<ParaChar>, a: nat, i: nat)
    requires Readable(base, types, paragraph) && paragraph != [] && TableHasNoMarks(paragraph, types)
    requires a < |ExplicitSequences(base, types)|
    requires var c, cls := ChainOf(base, types, paragraph, a), ChainClasses(base, types, paragraph, a, BRACKET_STAGE - 1);
             |c.chars| == |cls| && !Overflows(c, cls) && i < |PairsOf(c, cls)|
    ensures var c, cls := ChainOf(base, types, paragraph, a), ChainClasses(base, types, paragraph, a, BRACKET_STAGE - 1);
            && CtxOk(c, cls) && BracketsAreNoMarks(c) && Sized(c, cls) && c.chars != []
            && PairsOf(c, cls)[i].opening < PairsOf(c, cls)[i].closing < |cls| == |ExplicitSequences(base, types)[a].indices|
  {
    ChainHasNoMarks(base, types, paragraph, a);
    hide ChainOf, ChainClasses, Overflows, ExplicitSequences, Readable;
  }

  /** The direction of a bracket pair in the result, from the classes at its turn in N0. A pair that N0
      leaves alone goes to N1 and N2 as two neutrals. */
  lemma PairDirectionInResult(base: Level, types: seq<BidiClass>, paragraph: seq<ParaChar>, classes: seq<BidiClass>, levels: seq<Level>, a: nat, i: nat)
    requires Readable(base, types, paragraph) && IsResolution(base, types, paragraph, classes, levels)
    requires paragraph != [] && TableHasNoMarks(paragraph, types) && a < |ExplicitSequences(base, types)|
    requires ReachedByN0(base, types, paragraph, a)
    requires var c, cls := ChainOf(base, types, paragraph, a), ChainClasses(base, types, paragraph, a, BRACKET_STAGE - 1);
             |c.chars| == |cls| && !Overflows(c, cls) && i < |PairsOf(c, cls)|
    ensures var c, cls := ChainOf(base, types, paragraph, a), ChainClasses(base, types, paragraph, a, BRACKET_STAGE - 1);
            var out, ind := ChainClasses(base, types, paragraph, a, BRACKET_STAGE), ExplicitSequences(base, types)[a].indices;
            var p, now := PairsOf(c, cls)[i], ResolvePairs(c, cls, PairsOf(c, cls), i);
            var odd := c.level % 2 == 1;
            var along, against := if odd then R else L, if odd then L else R;
            && p.opening < p.closing < |ind| && ind[p.opening] < |classes| && ind[p.closing] < |classes|
            && if Encloses(now, p, odd) || Encloses(now, p, !odd) then
                 classes[ind[p.opening]] == classes[ind[p.closing]]
                 == if !Encloses(now, p, odd) && Precedes(c, now, p.opening, !odd) then against else along
               else out[p.opening] == out[p.closing] == ON
  {
    var c, cls := ChainOf(base, types, paragraph, a), ChainClasses(base, types, paragraph, a, BRACKET_STAGE - 1);
    PairPlaces(base, types, paragraph, a, i);
    ReachedIsApplied(base, types, paragraph, a);
    var p := PairsOf(c, cls)[i];
    hide *;
    N0IsApplied(c, cls);
    BracketsAfterN0(c, cls, i);
    FinalClassOf(base, types, paragraph, classes, levels, a, p.opening);
    FinalClassOf(base, types, paragraph, classes, levels, a, p.closing);
    var out := ChainClasses(base, types, paragraph, a, BRACKET_STAGE);
    LettersStay(c, out, p.opening);
    LettersStay(c, out, p.closing);
  }

  lemma LettersStay(c: Ctx, cls: seq<BidiClass>, k: nat)
    requires CtxOk(c, cls) && k < |cls|
    ensures cls[k] == L || cls[k] == R ==> N2(c, N1(c, cls))[k] == cls[k]
  {
    LetterIsNoNeutral(cls[k]);
    hide CtxOk, N1, N2;
    if cls[k] == L || cls[k] == R {
      OthersKeepTheirClass(c, cls, k);
    }
  }

  // ----- levels -----

  /** The least level from `from` on that is even, or odd. */
  ghost predicate LeastFrom(from: int, odd: bool, level: int) {
    && from <= level && (level % 2 == 1 <==> odd)
    && forall lower: int :: from <= lower < level ==> (lower % 2 == 1 <==> !odd)
  }

  lemma RaiseIsLeast(level: Level, bc: BidiClass)
    requires 0 <= level
    ensures bc == L || bc == R ==> LeastFrom(level, bc == R, level + LevelRaise(level, bc))
    ensures bc == EN || bc == AN ==> LeastFrom(level + 1, false, level + LevelRaise(level, bc))
  {
  }

  /** I1 and I2: L ends on the least even level not below the one X1-X9 gave, R on the least odd one, and a
      number on the least even one above. */
  lemma FinalLevelIsLeast(base: Level, types: seq<BidiClass>, paragraph: seq<ParaChar>, classes: seq<BidiClass>, levels: seq<Level>, p: nat)
    requires Readable(base, types, paragraph) && IsResolution(base, types, paragraph, classes, levels) && p < |types|
    ensures |classes| == |levels| == |Levels(MAX_DEPTH, base, types)| == |types|
    ensures var before := Levels(MAX_DEPTH, base, types)[p];
            if before == -1 then levels[p] == -1
            else
              && (classes[p] == L || classes[p] == R || classes[p] == EN || classes[p] == AN)
              && (classes[p] == L ==> LeastFrom(before, false, levels[p]))
              && (classes[p] == R ==> LeastFrom(before, true, levels[p]))
              && (classes[p] == EN || classes[p] == AN ==> LeastFrom(before + 1, false, levels[p]))
  {
    ResolutionIsResolved(base, types, paragraph, classes, levels);
    LevelsInRange(base, types);
    RaisedIs(base, types, paragraph, classes, levels, p);
    hide Levels, IsResolution, Readable, LevelRaise, LeastFrom;
    assert ResolvedAt(base, types[p], classes[p], levels[p]);
    if Levels(MAX_DEPTH, base, types)[p] != -1 {
      RaiseIsLeast(Levels(MAX_DEPTH, base, types)[p], classes[p]);
    }
  }

  lemma RaisedIs(base: Level, types: seq<BidiClass>, paragraph: seq<ParaChar>, classes: seq<BidiClass>, levels: seq<Level>, p: nat)
    requires Readable(base, types, paragraph) && IsResolution(base, types, paragraph, classes, levels) && p < |types|
    ensures |classes| == |levels| == |Levels(MAX_DEPTH, base, types)| == |types|
    ensures var before := Levels(MAX_DEPTH, base, types)[p];
            levels[p] == if before == -1 then -1 else before + LevelRaise(before, classes[p])
  {
    LevelsInRange(base, types);
    hide AtStage, LevelRaise, Levels;
  }
}
