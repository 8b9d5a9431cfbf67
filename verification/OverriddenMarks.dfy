/** A paragraph with a combining mark that an override makes R and that the source makes L again. */
module OverriddenMarks {
  import opened Options
  import opened BidiTypes
  import opened LevelStacks
  import opened Explicit
  import opened ExplicitFacts
  import opened Runs
  import opened RunFacts
  import opened Chains
  import opened Brackets
  import opened BracketFacts
  import opened Passes
  import opened PairFacts
  import opened Resolution
  import opened Outcome
  import opened Stillness
  import opened Counterexamples
  import opened LetterLaws

  /** RLE, L ( L ), PDF, and a mark in an RLO: the mark is at the level of the brackets. */
  function MarkedText(): seq<BidiClass> {
    [RLE, L, ON, L, ON, PDF, RLO, NSM]
  }

  function MarkedParagraph(): seq<ParaChar> {
    seq(8, k requires 0 <= k < 8 =>
      if k == 2 then ParaChar('(', ON, Some(BracketEntry(')', true)))
      else if k == 4 then ParaChar(')', ON, Some(BracketEntry('(', false)))
      else ParaChar('x', MarkedText()[k], None))
  }

  // ----- X1-X9 -----

  function AfterRle(): Status {
    Status(Initial(0).stack + [Entry(1, NoOverride, false)], 0, 0, 0)
  }

  function AfterRlo(): Status {
    Status(Initial(0).stack + [Entry(1, OverrideRtl, false)], 0, 0, 0)
  }

  function StatusBefore(m: nat): Status {
    if 1 <= m <= 5 then AfterRle() else if m <= 6 then Initial(0) else AfterRlo()
  }

  lemma MarkedSteps(bc: BidiClass, fsiRtl: bool)
    ensures Initial(0).stack != [] && Initial(0).Top() == Entry(0, NoOverride, false)
    ensures AfterRle().stack != [] && AfterRle().Top() == Entry(1, NoOverride, false)
    ensures AfterRlo().stack != [] && AfterRlo().Top() == Entry(1, OverrideRtl, false)
    ensures Step(MAX_DEPTH, Initial(0), RLE, fsiRtl) == Some(AfterRle())
    ensures Step(MAX_DEPTH, Initial(0), RLO, fsiRtl) == Some(AfterRlo())
    ensures Step(MAX_DEPTH, AfterRle(), PDF, fsiRtl) == Some(Initial(0))
    ensures bc == L || bc == ON ==> Step(MAX_DEPTH, AfterRle(), bc, fsiRtl) == Some(AfterRle())
    ensures Step(MAX_DEPTH, AfterRlo(), NSM, fsiRtl) == Some(AfterRlo())
  {
    assert NextLevel(RLE, 0, false) == Some(1) && NextLevel(RLO, 0, false) == Some(1);
    assert AfterRle().stack[..1] == Initial(0).stack;
  }

  lemma MarkedAre(types: seq<BidiClass>)
    requires types == MarkedText()
    ensures |types| == 8 && types[0] == RLE && types[1] == types[3] == L && types[2] == types[4] == ON
    ensures types[5] == PDF && types[6] == RLO && types[7] == NSM
  {
  }

  lemma {:induction false} MarkedRun(types: seq<BidiClass>, m: nat)
    requires types == MarkedText() && m <= 8
    ensures |types| == 8 && Run(MAX_DEPTH, 0, types, m) == Some(StatusBefore(m))
  {
    MarkedAre(types);
    hide *;
    if m == 0 {
      RunStart(MAX_DEPTH, 0, types);
      BeforeIs(0);
    } else {
      MarkedRun(types, m - 1);
      MarkedSteps(types[m - 1], FsiIsRtl(types, m - 1));
      RunStep(MAX_DEPTH, 0, types, m - 1);
      BeforeIs(m);
      BeforeIs(m - 1);
      assert m == 1 || m == 2 || m == 3 || m == 4 || m == 5 || m == 6 || m == 7 || m == 8;
    }
  }

  lemma BeforeIs(m: nat)
    ensures StatusBefore(m) == if 1 <= m <= 5 then AfterRle() else if m <= 6 then Initial(0) else AfterRlo()
  {
  }

  function MarkedLevels(): seq<Level> {
    [-1, 1, 1, 1, 1, -1, -1, 1]
  }

  function MarkedClasses(): seq<BidiClass> {
    [RLE, L, ON, L, ON, PDF, RLO, R]
  }

  lemma MarkedCompletes(types: seq<BidiClass>)
    requires types == MarkedText()
    ensures |types| == 8 && Completes(MAX_DEPTH, 0, types)
  {
    MarkedAre(types);
    hide MarkedText, Run;
    forall m | 0 <= m <= |types| ensures Run(MAX_DEPTH, 0, types, m).Some? {
      MarkedRun(types, m);
    }
  }

  lemma ExplicitAt(types: seq<BidiClass>, p: nat, s: Status)
    requires Completes(MAX_DEPTH, 0, types) && p < |types| && types[p] != B && types[p] != PDI
    requires Run(MAX_DEPTH, 0, types, p) == Some(s) && s.stack != []
    ensures |Levels(MAX_DEPTH, 0, types)| == |Classes(MAX_DEPTH, 0, types)| == |types|
    ensures Levels(MAX_DEPTH, 0, types)[p] == if IsRemovedClass(types[p]) then -1 else s.Top().level
    ensures Classes(MAX_DEPTH, 0, types)[p] == if IsRemovedClass(types[p]) then types[p] else ApplyOverride(s.Top().ovr, types[p])
  {
    hide Run;
  }

  lemma MarkedEntry(p: nat, s: Status)
    requires p < 8 && s == StatusBefore(p)
    ensures var bc := MarkedText()[p];
            && s.stack != [] && bc != B && bc != PDI
            && MarkedLevels()[p] == (if IsRemovedClass(bc) then -1 else s.Top().level)
            && MarkedClasses()[p] == (if IsRemovedClass(bc) then bc else ApplyOverride(s.Top().ovr, bc))
  {
    MarkedSteps(L, false);
    BeforeIs(p);
    hide StatusBefore, AfterRle, AfterRlo, Initial, Step;
    assert p == 0 || p == 1 || p == 2 || p == 3 || p == 4 || p == 5 || p == 6 || p == 7;
  }

  lemma MarkedAt(types: seq<BidiClass>, p: nat)
    requires types == MarkedText() && p < 8 && Completes(MAX_DEPTH, 0, types)
    ensures |types| == |Levels(MAX_DEPTH, 0, types)| == |Classes(MAX_DEPTH, 0, types)| == 8
    ensures Levels(MAX_DEPTH, 0, types)[p] == MarkedLevels()[p]
    ensures Classes(MAX_DEPTH, 0, types)[p] == MarkedClasses()[p]
  {
    assert |MarkedText()| == |MarkedLevels()| == |MarkedClasses()| == 8;
    hide *;
    MarkedRun(types, p);
    MarkedEntry(p, StatusBefore(p));
    ExplicitAt(types, p, StatusBefore(p));
  }

  lemma MarkedExplicit(types: seq<BidiClass>)
    requires types == MarkedText()
    ensures Completes(MAX_DEPTH, 0, types)
    ensures Classes(MAX_DEPTH, 0, types) == MarkedClasses() && Levels(MAX_DEPTH, 0, types) == MarkedLevels()
  {
    MarkedCompletes(types);
    MarkedAt(types, 0);
    hide MarkedText, Levels, Classes;
    forall p: nat | p < 8
      ensures Levels(MAX_DEPTH, 0, types)[p] == MarkedLevels()[p]
      ensures Classes(MAX_DEPTH, 0, types)[p] == MarkedClasses()[p]
    {
      MarkedAt(types, p);
    }
  }

  // ----- X10 -----

  lemma OneSpan(types: seq<BidiClass>, levels: seq<Level>)
    requires types == MarkedClasses() && levels == MarkedLevels()
    ensures SpanEnd(types, levels, 0, -1) == 8 && FirstLevel(levels, 0) == 1
  {
    assert SpanEnd(types, levels, 8, 1) == 8;
    assert SpanEnd(types, levels, 7, 1) == 8;
    assert SpanEnd(types, levels, 6, 1) == 8;
    assert SpanEnd(types, levels, 5, 1) == 8;
    assert SpanEnd(types, levels, 4, 1) == 8;
    assert SpanEnd(types, levels, 3, 1) == 8;
    assert SpanEnd(types, levels, 2, 1) == 8;
    assert SpanEnd(types, levels, 1, -1) == 8;
    assert FirstLevel(levels, 1) == 1;
  }

  lemma OneRunText(types: seq<BidiClass>, levels: seq<Level>)
    requires 0 < |types| == |levels| && SpanEnd(types, levels, 0, -1) == |types| && FirstLevel(levels, 0) == 1
    ensures TextOf(types, levels, 0).runs == [LevelRun(0, |types|, |types|, 0, 1, R, R)]
    ensures TextOf(types, levels, 0).types == types && TextOf(types, levels, 0).levels == levels
  {
    hide SpanEnd, FirstLevel;
    var run := LevelRun(0, |types|, |types|, 0, 1, ON, ON);
    assert RunsFrom(types, levels, |types|) == [];
    assert RunsFrom(types, levels, 0) == [run];
    assert SorEor([run], 0, 0) == run.(sor := R, eor := R);
  }

  lemma OneSequence(text: Text)
    requires TextOk(text) && |text.runs| == 1 && !EndsInInitiator(text, 0)
    ensures Sequences(text, {}, 0) == [[0]]
  {
    hide EndsInInitiator, Chain;
    assert SequenceFrom(text, {}, 0) == [0];
    assert Sequences(text, {} + AsSet([0]), 1) == [];
  }

  lemma MarkedSequence(types: seq<BidiClass>, levels: seq<Level>)
    requires types == MarkedClasses() && levels == MarkedLevels()
    ensures |types| == |levels| == 8
    ensures var seqs := SequencesOfText(types, levels, 0);
            && |seqs| == 1 && seqs[0].indices == Span(0, 8) && seqs[0].level == 1 && seqs[0].sos == seqs[0].eos == R
  {
    var text := TextOf(types, levels, 0);
    OneSpan(types, levels);
    assert types[7] == R && |types| == |levels| == 8;
    hide MarkedClasses, MarkedLevels, SpanEnd, FirstLevel, Sequences, BuildSequence, Span;
    OneRunText(types, levels);
    TextOfIsTiled(types, levels, 0);
    hide TextOf;
    assert RunInText(text, 0);
    assert !EndsInInitiator(text, 0);
    OneSequence(text);
    OneRun(text, 0, 0);
    hide TextOk, EndsInInitiator, Tiled;
  }

  // ----- N0 -----

  ghost predicate MarkedChain(c: Ctx, cls: seq<BidiClass>) {
    && cls == MarkedClasses() && c.levels == MarkedLevels() && c.orig == MarkedText() && c.chars == MarkedParagraph()
    && c.level == 1 && c.sos == c.eos == R
  }

  lemma ScanIdles(c: Ctx, cls: seq<BidiClass>, k: nat)
    requires k < |cls| == |c.chars| && cls[k] != ON
    ensures PairScan(c, cls, k + 1) == PairScan(c, cls, k)
  {
  }

  lemma ScanSteps(c: Ctx, cls: seq<BidiClass>, k: nat, s: PairState)
    requires k < |cls| == |c.chars| && PairScan(c, cls, k) == Some(s)
    ensures PairScan(c, cls, k + 1) == PairStep(c, cls, s, k)
  {
  }

  lemma MarkedBrackets(c: Ctx, cls: seq<BidiClass>)
    requires MarkedChain(c, cls)
    ensures |cls| == |c.chars| == 8 && PairScan(c, cls, 0) == Some(PairState([], []))
    ensures forall k: nat :: k < 8 && k != 2 && k != 4 ==> cls[k] != ON
    ensures PairStep(c, cls, PairState([], []), 2) == Some(PairState([Opener(')', 2)], []))
    ensures PairStep(c, cls, PairState([Opener(')', 2)], []), 4) == Some(PairState([], [Pair(2, 4)]))
  {
    var open, none, pairs := [Opener(')', 2)], [], [];
    assert none + open == open && pairs + [Pair(2, 4)] == [Pair(2, 4)];
    assert Seek(open, ')', 1) == 0;
    assert open[..0] == [];
  }

  lemma MarkedPairs(c: Ctx, cls: seq<BidiClass>)
    requires MarkedChain(c, cls)
    ensures |cls| == |c.chars| == 8 && PairScan(c, cls, 8) == Some(PairState([], [Pair(2, 4)]))
  {
    hide *;
    MarkedBrackets(c, cls);
    ScanIdles(c, cls, 0);
    ScanIdles(c, cls, 1);
    ScanSteps(c, cls, 2, PairState([], []));
    ScanIdles(c, cls, 3);
    ScanSteps(c, cls, 4, PairState([Opener(')', 2)], []));
    ScanIdles(c, cls, 5);
    ScanIdles(c, cls, 6);
    ScanIdles(c, cls, 7);
  }

  lemma MarkedContext(c: Ctx, cls: seq<BidiClass>)
    requires MarkedChain(c, cls)
    ensures |cls| == |c.levels| == |c.orig| == 8
    ensures !Encloses(cls, Pair(2, 4), true) && Encloses(cls, Pair(2, 4), false) && Precedes(c, cls, 2, false)
    ensures Follows(c, Pair(2, 4), 7) && cls[7] == R && AllStill(cls)
  {
    assert CountsAs(cls[3], false);
    assert LastCounted(c, cls, 2, 1) && CountsAs(cls[1], false);
    assert MarkBehind(c, 4, 7);
  }

  /** N0 makes the brackets L. */
  lemma MarkedPairIsLeft(c: Ctx, cls: seq<BidiClass>)
    requires MarkedChain(c, cls) && CtxOk(c, cls) && BracketsAreNoMarks(c)
    ensures |cls| == |c.chars| == |c.orig| == |c.levels| && c.chars != [] && !Overflows(c, cls) && PairsOf(c, cls) == [Pair(2, 4)]
    ensures N0(c, cls)[2] == L
  {
    MarkedPairs(c, cls);
    MarkedContext(c, cls);
    assert c.level == 1;
    var p := Pair(2, 4);
    assert SortPairs([p]) == [p];
    hide PairScan, SortPairs, MarkedChain, N0, Encloses, Precedes, Follows, AllStill, CtxOk, BracketsAreNoMarks;
    assert PairsOf(c, cls) == [p];
    assert ResolvePairs(c, cls, [p], 0) == cls;
    BracketsAfterN0(c, cls, 0);
  }

  // ----- the result -----

  lemma MarkedReadable(types: seq<BidiClass>, paragraph: seq<ParaChar>)
    requires types == MarkedText() && paragraph == MarkedParagraph()
    ensures Readable(0, types, paragraph) && paragraph != [] && TableHasNoMarks(paragraph, types)
    ensures |types| == |paragraph| == |Classes(MAX_DEPTH, 0, types)| == 8
    ensures Classes(MAX_DEPTH, 0, types) == MarkedClasses() && Levels(MAX_DEPTH, 0, types) == MarkedLevels()
    ensures var seqs := ExplicitSequences(0, types);
            && |seqs| == 1 && seqs[0].indices == Span(0, 8) && seqs[0].level == 1 && seqs[0].sos == seqs[0].eos == R
  {
    MarkedExplicit(types);
    MarkedAre(types);
    MarkedSequence(MarkedClasses(), MarkedLevels());
    MarkedHasNoMarks();
    hide MarkedLevels, MarkedClasses, MarkedText, MarkedParagraph, TableHasNoMarks, Completes, SequencesOfText, Levels, Classes, Span;
  }

  lemma MarkedHasNoMarks()
    ensures |MarkedParagraph()| == |MarkedText()| == 8 && TableHasNoMarks(MarkedParagraph(), MarkedText())
  {
  }

  lemma WholeText<T>(all: seq<T>)
    requires |all| == 8
    ensures Span(0, 8) == [0, 1, 2, 3, 4, 5, 6, 7] && Gather(all, Span(0, 8)) == all
  {
  }

  lemma MarkedContextOf(env: Env, s: IsoSeq)
    requires env == Env(MarkedLevels(), MarkedText(), MarkedParagraph())
    requires s.indices == Span(0, 8) && s.level == 1 && s.sos == s.eos == R
    ensures InRange(s, 8) && |env.levels| == |env.orig| == |env.paragraph| == |MarkedClasses()| == 8
    ensures MarkedChain(CtxOf(env, s), Gather(MarkedClasses(), s.indices))
  {
    WholeText(env.levels);
    WholeText(env.orig);
    WholeText(env.paragraph);
    WholeText(MarkedClasses());
  }

  /** W1-W7 leave a still chain alone. */
  lemma StillAtBrackets(base: Level, types: seq<BidiClass>, paragraph: seq<ParaChar>, a: nat, last: nat)
    requires Readable(base, types, paragraph) && last == BRACKET_STAGE - 1
    requires a < |ExplicitSequences(base, types)| && InRange(ExplicitSequences(base, types)[a], |Classes(MAX_DEPTH, base, types)|)
    requires AllStill(Gather(Classes(MAX_DEPTH, base, types), ExplicitSequences(base, types)[a].indices))
    ensures ChainClasses(base, types, paragraph, a, last) == Gather(Classes(MAX_DEPTH, base, types), ExplicitSequences(base, types)[a].indices)
  {
    ExplicitEnvOk(base, types, paragraph);
    var env, seqs, explicit := ExplicitEnv(base, types, paragraph), ExplicitSequences(base, types), Classes(MAX_DEPTH, base, types);
    assert EnvSized(env, seqs, explicit);
    var cls := Gather(explicit, seqs[a].indices);
    assert cls == After(0, env, seqs, explicit, a);
    WeakRulesRest(last, env, seqs, explicit, a, cls);
    hide EnvOk, EnvSized, After, ExplicitEnv, ExplicitSequences, Classes, AllStill, Gather;
  }

  lemma MarkedInText(types: seq<BidiClass>, paragraph: seq<ParaChar>, last: nat)
    requires types == MarkedText() && paragraph == MarkedParagraph() && last == BRACKET_STAGE - 1
    ensures Readable(0, types, paragraph) && |ExplicitSequences(0, types)| == 1
    ensures MarkedChain(ChainOf(0, types, paragraph, 0), ChainClasses(0, types, paragraph, 0, last))
  {
    MarkedReadable(types, paragraph);
    var s := ExplicitSequences(0, types)[0];
    MarkedContextOf(Env(MarkedLevels(), types, paragraph), s);
    hide MarkedText, MarkedParagraph, MarkedLevels, MarkedClasses, Readable, Levels, Classes, ExplicitSequences, Span,
         ChainOf, ChainClasses, AllStill, CtxOf, Gather, MarkedChain;
    ChainIs(0, types, paragraph, 0);
    MarkedContext(CtxOf(Env(MarkedLevels(), types, paragraph), s), Gather(MarkedClasses(), s.indices));
    StillAtBrackets(0, types, paragraph, 0, last);
  }

  lemma OnlySequence(types: seq<BidiClass>, paragraph: seq<ParaChar>, last: nat)
    requires Readable(0, types, paragraph) && |ExplicitSequences(0, types)| == 1 && last == BRACKET_STAGE - 1
    requires var c, cls := ChainOf(0, types, paragraph, 0), ChainClasses(0, types, paragraph, 0, last);
             |c.chars| == |cls| && !Overflows(c, cls)
    ensures ReachedByN0(0, types, paragraph, 0)
  {
    hide ChainOf, ChainClasses, Readable, ExplicitSequences, Overflows;
  }

  lemma FollowsFirst(c: Ctx, cls: seq<BidiClass>, out: seq<BidiClass>, k: nat, p: Pair)
    requires |c.chars| == |cls| == |out| && !Overflows(c, cls) && |c.levels| == |c.orig|
    requires PairsOf(c, cls) == [p] && Follows(c, p, k) && p.opening < |out| && out[p.opening] == L
    ensures FollowsInChain(c, cls, out, k, L)
  {
    hide Overflows, PairsOf, Follows;
    assert PairsOf(c, cls)[0] == p;
  }

  /** The override makes the mark R, and in the result it is L like the bracket it follows. */
  lemma OverriddenMarkTurns(classes: seq<BidiClass>, levels: seq<Level>)
    requires Readable(0, MarkedText(), MarkedParagraph())
    requires IsResolution(0, MarkedText(), MarkedParagraph(), classes, levels)
    ensures |MarkedText()| == |Classes(MAX_DEPTH, 0, MarkedText())| == |classes| == 8
    ensures MarkedText()[6] == RLO && MarkedText()[7] == NSM && Classes(MAX_DEPTH, 0, MarkedText())[7] == R && classes[7] == L
  {
    var types, paragraph, last, p := MarkedText(), MarkedParagraph(), BRACKET_STAGE - 1, Pair(2, 4);
    MarkedReadable(types, paragraph);
    MarkedAre(types);
    assert MarkedClasses()[7] == R && Span(0, 8)[7] == 7 && |Span(0, 8)| == 8;
    var c, cls, out := ChainOf(0, types, paragraph, 0), ChainClasses(0, types, paragraph, 0, last), ChainClasses(0, types, paragraph, 0, last + 1);
    SameSize(0, types, paragraph, classes, levels);
    assert last + 1 == BRACKET_STAGE;
    hide *;
    MarkedInText(types, paragraph, last);
    CharsOfChain(0, types, paragraph, 0);
    MarkedContext(c, cls);
    MarkedPairIsLeft(c, cls);
    OnlySequence(types, paragraph, last);
    AppliedOrNot(0, types, paragraph, 0);
    N0IsApplied(c, cls);
    FollowsFirst(c, cls, out, 7, p);
    FollowsBracketIff(0, types, paragraph, 0, 7, L);
    OverriddenMarkInResult(0, types, paragraph, classes, levels, 0, 7);
  }
}
