/** Paragraphs on which the source is known to leave UAX #9 or its own comments. */
module Counterexamples {
  import opened Options
  import opened BidiTypes
  import opened LevelStacks
  import opened Explicit
  import opened ExplicitFacts
  import opened Runs
  import opened RunFacts
  import opened Chains
  import opened Neutral
  import opened Brackets
  import opened Passes
  import opened Resolution
  import opened Outcome
  import opened Stillness
  import Reorder

  // ----- two neighbours at level 126 and no odd level -----

  /** 124 embeddings and two Arabic numbers. */
  function DeepNumbers(): seq<BidiClass> {
    Tower([AN, AN])
  }

  /** The numbers end two levels above the deepest embedding. */
  function DeepLevels(): seq<Level> {
    seq(126, p => if p < 124 then NO_LEVEL else 126)
  }

  lemma DeepNumbersAre(types: seq<BidiClass>, k: nat)
    requires types == DeepNumbers() && k == 124
    ensures |types| == k + 2 && types[k] == types[k + 1] == AN
    ensures forall p: nat :: p < k ==> IsEmbedding(types[p])
  {
    var rest := [AN, AN];
    assert types[k] == rest[0] && types[k + 1] == rest[1];
  }

  lemma NumberKeepsStatus(s: Status, fsiRtl: bool)
    requires s.stack != [] && s.Top().level <= MAX_DEPTH
    ensures Step(MAX_DEPTH, s, AN, fsiRtl) == Some(s)
  {
  }

  lemma DeepRun(types: seq<BidiClass>, k: nat, m: nat)
    requires types == DeepNumbers() && k == 124 && m <= k + 2
    ensures |types| == k + 2
    ensures Run(MAX_DEPTH, 0, types, m) == Some(Status(Ramp(if m < k then m else k), 0, 0, 0))
  {
    DeepNumbersAre(types, k);
    var rest := [AN, AN];
    assert types == Tower(rest);
    hide *;
    if m <= k {
      TowerClimbs(MAX_DEPTH, rest, m);
    } else {
      DeepRun(types, k, m - 1);
      RunStep(MAX_DEPTH, 0, types, m - 1);
      NumberKeepsStatus(Status(Ramp(k), 0, 0, 0), FsiIsRtl(types, m - 1));
    }
  }

  lemma DeepCompletes(types: seq<BidiClass>, k: nat)
    requires types == DeepNumbers() && k == 124
    ensures |types| == k + 2 && Completes(MAX_DEPTH, 0, types)
  {
    DeepNumbersAre(types, k);
    hide DeepNumbers, Run;
    forall m | 0 <= m <= |types| ensures Run(MAX_DEPTH, 0, types, m).Some? {
      DeepRun(types, k, m);
    }
  }

  lemma DeepAt(types: seq<BidiClass>, k: nat, p: nat)
    requires types == DeepNumbers() && k == 124 && p < k + 2 && Completes(MAX_DEPTH, 0, types)
    ensures |types| == |Levels(MAX_DEPTH, 0, types)| == |Classes(MAX_DEPTH, 0, types)| == k + 2
    ensures Levels(MAX_DEPTH, 0, types)[p] == if p < k then NO_LEVEL else k
    ensures Classes(MAX_DEPTH, 0, types)[p] == types[p]
  {
    hide *;
    DeepNumbersAre(types, k);
    if p < k {
      RemovedAt(0, types, p);
    } else {
      DeepRun(types, k, p);
      RampTop(k);
      OrdinaryAt(0, types, p, Status(Ramp(k), 0, 0, 0), Entry(k, NoOverride, false));
    }
  }

  lemma RampTop(k: nat)
    requires k <= 124
    ensures Status(Ramp(k), 0, 0, 0).stack != [] && Status(Ramp(k), 0, 0, 0).Top() == Entry(k, NoOverride, false)
  {
  }

  lemma RemovedAt(base: Level, types: seq<BidiClass>, p: nat)
    requires Completes(MAX_DEPTH, base, types) && p < |types| && IsEmbedding(types[p])
    ensures |Levels(MAX_DEPTH, base, types)| == |Classes(MAX_DEPTH, base, types)| == |types|
    ensures Levels(MAX_DEPTH, base, types)[p] == NO_LEVEL && Classes(MAX_DEPTH, base, types)[p] == types[p]
  {
    hide Run, Deciding;
  }

  lemma OrdinaryAt(base: Level, types: seq<BidiClass>, p: nat, s: Status, e: Entry)
    requires Completes(MAX_DEPTH, base, types) && p < |types|
    requires types[p] == L || types[p] == R || types[p] == AN || types[p] == ON
    requires Run(MAX_DEPTH, base, types, p) == Some(s) && s.stack != [] && s.Top() == e && e.ovr == NoOverride
    ensures |Levels(MAX_DEPTH, base, types)| == |Classes(MAX_DEPTH, base, types)| == |types|
    ensures Levels(MAX_DEPTH, base, types)[p] == e.level && Classes(MAX_DEPTH, base, types)[p] == types[p]
  {
    hide Run;
  }

  /** X1-X9 leave the classes alone. */
  lemma DeepExplicit(types: seq<BidiClass>, k: nat)
    requires types == DeepNumbers() && k == 124
    ensures |types| == k + 2 && Readable(0, types, []) && Classes(MAX_DEPTH, 0, types) == types
    ensures forall p: nat :: p < k + 2 ==> (types[p] == AN || IsEmbedding(types[p]))
    ensures var levels := Levels(MAX_DEPTH, 0, types);
            |levels| == k + 2 && forall p: nat :: p < k + 2 ==> levels[p] == if p < k then NO_LEVEL else k
  {
    hide *;
    DeepCompletes(types, k);
    ReadableWithout(0, types);
    DeepNumbersAre(types, k);
    forall p: nat | p < k + 2
      ensures Levels(MAX_DEPTH, 0, types)[p] == if p < k then NO_LEVEL else k
      ensures Classes(MAX_DEPTH, 0, types)[p] == types[p]
    {
      DeepAt(types, k, p);
    }
    DeepAt(types, k, 0);
  }

  lemma ReadableWithout(base: Level, types: seq<BidiClass>)
    requires Completes(MAX_DEPTH, base, types)
    ensures Readable(base, types, [])
    ensures |Levels(MAX_DEPTH, base, types)| == |Classes(MAX_DEPTH, base, types)| == |types|
  {
    hide Completes;
  }

  lemma NumbersRest(env: Env, seqs: seq<IsoSeq>, types: seq<BidiClass>)
    requires EnvOk(env, seqs, types) && env.paragraph == []
    requires forall p: nat :: p < |types| ==> (types[p] == AN || IsEmbedding(types[p]))
    ensures AtStage(BRACKET_STAGE + 2, env, seqs, types, types)
  {
    var stage, last := BRACKET_STAGE, BRACKET_STAGE + 2;
    assert EnvSized(env, seqs, types);
    forall a: nat | a < |seqs| ensures ChainAt(last, env, seqs, types, types, a) {
      ChainOfNumbers(env, seqs, types, a);
      hide After, EnvSized, NoNeutral;
      AllRulesRest(env, seqs, types, a, stage);
    }
    hide EnvSized, After;
  }

  lemma ChainOfNumbers(env: Env, seqs: seq<IsoSeq>, types: seq<BidiClass>, a: nat)
    requires EnvSized(env, seqs, types) && a < |seqs|
    requires forall p: nat :: p < |types| ==> (types[p] == AN || IsEmbedding(types[p]))
    ensures NoNeutral(After(0, env, seqs, types, a))
    ensures After(0, env, seqs, types, a) == Gather(types, seqs[a].indices)
  {
  }

  lemma DeepRaised(levels: seq<Level>, types: seq<BidiClass>, k: nat)
    requires k == 124 && |levels| == |types| == k + 2 && types[k] == types[k + 1] == AN
    requires forall p: nat :: p < k + 2 ==> levels[p] == if p < k then NO_LEVEL else k
    ensures Raised(levels, types, DeepLevels())
  {
    assert RemTwo(k) == 0;
  }

  lemma DeepKept()
    ensures Reorder.Kept(DeepLevels()) == [126, 126]
  {
    var levels := DeepLevels();
    NoneKept(levels, 124);
    assert Reorder.KeptUpTo(levels, 125) == [126];
    assert Reorder.KeptUpTo(levels, 126) == [126] + [126];
  }

  lemma {:induction false} NoneKept(levels: seq<Level>, n: nat)
    requires n <= |levels| && forall p :: 0 <= p < n ==> Removed(levels[p])
    ensures Reorder.KeptUpTo(levels, n) == []
  {
    if n > 0 {
      NoneKept(levels, n - 1);
    }
  }

  /** `resolve` gives this paragraph a line without odd levels and with two neighbours at level 126, the
      kind of line that the source does not order as L2 does. */
  lemma NeighboursAt126Occur()
    ensures var types := DeepNumbers();
            Readable(0, types, []) && IsResolution(0, types, [], types, DeepLevels())
    ensures !Reorder.HasOdd(Reorder.Kept(DeepLevels())) && Reorder.NeighboursAt126(Reorder.Kept(DeepLevels()))
  {
    var types, k := DeepNumbers(), 124;
    hide *;
    DeepKept();
    TwoAt126();
    DeepExplicit(types, k);
    DeepNumbersAre(types, k);
    ExplicitEnvOk(0, types, []);
    ExplicitEnvIs(0, types, []);
    NumbersRest(ExplicitEnv(0, types, []), ExplicitSequences(0, types), types);
    DeepRaised(Levels(MAX_DEPTH, 0, types), types, k);
    ResolvedBy(0, types, [], types, DeepLevels());
  }

  lemma TwoAt126()
    ensures !Reorder.HasOdd([126, 126]) && Reorder.NeighboursAt126([126, 126])
  {
    var c: seq<Level> := [126, 126];
    assert c[0] == c[1] == 126;
  }

  lemma ExplicitEnvIs(base: Level, types: seq<BidiClass>, paragraph: seq<ParaChar>)
    requires Readable(base, types, paragraph)
    ensures Completes(MAX_DEPTH, base, types)
    ensures ExplicitEnv(base, types, paragraph) == Env(Levels(MAX_DEPTH, base, types), types, paragraph)
  {
  }

  // ----- 64 open brackets in one sequence and a bracket pair in another -----

  /** 64 opening brackets, LRE, and R ( R ) L: two level runs, each a sequence of its own. */
  function ManyOpeners(): seq<BidiClass> {
    seq(64, _ => ON) + [LRE, R, ON, R, ON, L]
  }

  function OpenersParagraph(): seq<ParaChar> {
    seq(70, k requires 0 <= k < 70 =>
      var bc := ManyOpeners()[k];
      if k < 64 || k == 66 then ParaChar('(', bc, Some(BracketEntry(')', true)))
      else if k == 68 then ParaChar(')', bc, Some(BracketEntry('(', false)))
      else ParaChar('x', bc, None))
  }

  lemma OpenersAre(types: seq<BidiClass>, k: nat)
    requires types == ManyOpeners() && k == 64
    ensures |types| == k + 6 && forall p: nat :: p < k ==> types[p] == ON
    ensures types[k] == LRE && types[k + 1] == R && types[k + 2] == ON && types[k + 3] == R && types[k + 4] == ON && types[k + 5] == L
  {
  }

  function AfterLre(): Status {
    Status(Initial(0).stack + [Entry(2, NoOverride, false)], 0, 0, 0)
  }

  lemma OpenersSteps(bc: BidiClass, fsiRtl: bool)
    ensures Initial(0).stack != [] && Initial(0).Top() == Entry(0, NoOverride, false)
    ensures AfterLre().stack != [] && AfterLre().Top() == Entry(2, NoOverride, false)
    ensures Step(MAX_DEPTH, Initial(0), LRE, fsiRtl) == Some(AfterLre())
    ensures bc == L || bc == R || bc == ON ==>
              Step(MAX_DEPTH, Initial(0), bc, fsiRtl) == Some(Initial(0)) && Step(MAX_DEPTH, AfterLre(), bc, fsiRtl) == Some(AfterLre())
  {
    assert NextLevel(LRE, 0, false) == Some(2);
  }

  lemma {:induction false} OpenersRun(types: seq<BidiClass>, k: nat, m: nat)
    requires types == ManyOpeners() && k == 64 && m <= k + 6
    ensures |types| == k + 6
    ensures Run(MAX_DEPTH, 0, types, m) == Some(if m <= k then Initial(0) else AfterLre())
  {
    hide *;
    OpenersAre(types, k);
    if m == 0 {
      RunStart(MAX_DEPTH, 0, types);
    } else {
      OpenersRun(types, k, m - 1);
      OpenersSteps(types[m - 1], FsiIsRtl(types, m - 1));
      RunStep(MAX_DEPTH, 0, types, m - 1);
      assert m - 1 < k || m - 1 == k || m - 1 == k + 1 || m - 1 == k + 2 || m - 1 == k + 3 || m - 1 == k + 4 || m - 1 == k + 5;
    }
  }

  function OpenersLevels(k: nat): seq<Level> {
    seq(k + 6, p => if p < k then 0 else if p == k then NO_LEVEL else 2)
  }

  lemma OpenersComplete(types: seq<BidiClass>, k: nat)
    requires types == ManyOpeners() && k == 64
    ensures |types| == k + 6 && Completes(MAX_DEPTH, 0, types)
  {
    OpenersAre(types, k);
    hide ManyOpeners, Run;
    forall m | 0 <= m <= |types| ensures Run(MAX_DEPTH, 0, types, m).Some? {
      OpenersRun(types, k, m);
    }
  }

  lemma OpenersAt(types: seq<BidiClass>, k: nat, p: nat)
    requires types == ManyOpeners() && k == 64 && p < k + 6 && Completes(MAX_DEPTH, 0, types)
    ensures |types| == |Levels(MAX_DEPTH, 0, types)| == |Classes(MAX_DEPTH, 0, types)| == k + 6
    ensures Levels(MAX_DEPTH, 0, types)[p] == if p < k then 0 else if p == k then NO_LEVEL else 2
    ensures Classes(MAX_DEPTH, 0, types)[p] == types[p]
  {
    hide *;
    OpenersAre(types, k);
    OpenersRun(types, k, p);
    OpenersSteps(L, false);
    if p < k {
      OrdinaryAt(0, types, p, Initial(0), Entry(0, NoOverride, false));
    } else if p == k {
      LreEmbeds();
      RemovedAt(0, types, p);
    } else {
      assert p == k + 1 || p == k + 2 || p == k + 3 || p == k + 4 || p == k + 5;
      OrdinaryAt(0, types, p, AfterLre(), Entry(2, NoOverride, false));
    }
  }

  lemma LreEmbeds()
    ensures IsEmbedding(LRE)
  {
  }

  lemma OpenersExplicit(types: seq<BidiClass>, k: nat)
    requires types == ManyOpeners() && k == 64
    ensures Completes(MAX_DEPTH, 0, types)
    ensures Classes(MAX_DEPTH, 0, types) == types && Levels(MAX_DEPTH, 0, types) == OpenersLevels(k)
  {
    OpenersComplete(types, k);
    hide ManyOpeners, Levels, Classes;
    forall p: nat | p < k + 6
      ensures |Levels(MAX_DEPTH, 0, types)| == |Classes(MAX_DEPTH, 0, types)| == |types| == k + 6
      ensures Levels(MAX_DEPTH, 0, types)[p] == OpenersLevels(k)[p]
      ensures Classes(MAX_DEPTH, 0, types)[p] == types[p]
    {
      OpenersAt(types, k, p);
    }
    OpenersAt(types, k, 0);
  }

  // The runs of that text.

  lemma {:induction false} FirstSpan(types: seq<BidiClass>, levels: seq<Level>, k: nat, i: nat)
    requires types == ManyOpeners() && k == 64 && levels == OpenersLevels(k) && i <= k
    ensures |types| == |levels| == k + 6
    ensures SpanEnd(types, levels, i, if i == 0 then NO_LEVEL else 0) == k + 1
    decreases k - i
  {
    OpenersAre(types, k);
    if i < k {
      FirstSpan(types, levels, k, i + 1);
    }
    hide ManyOpeners;
  }

  lemma {:induction false} SecondSpan(types: seq<BidiClass>, levels: seq<Level>, k: nat, i: nat)
    requires types == ManyOpeners() && k == 64 && levels == OpenersLevels(k) && k < i <= k + 6
    ensures |types| == |levels| == k + 6
    ensures SpanEnd(types, levels, i, if i == k + 1 then NO_LEVEL else 2) == k + 6
    decreases k + 6 - i
  {
    OpenersAre(types, k);
    if i < k + 6 {
      SecondSpan(types, levels, k, i + 1);
    }
    hide ManyOpeners;
  }

  lemma OpenersSpans(types: seq<BidiClass>, levels: seq<Level>, k: nat)
    requires types == ManyOpeners() && k == 64 && levels == OpenersLevels(k)
    ensures |types| == |levels| == k + 6
    ensures SpanEnd(types, levels, 0, NO_LEVEL) == k + 1 && FirstLevel(levels, 0) == 0
    ensures SpanEnd(types, levels, k + 1, NO_LEVEL) == k + 6 && FirstLevel(levels, k + 1) == 2
  {
    FirstSpan(types, levels, k, 0);
    SecondSpan(types, levels, k, k + 1);
    assert levels[0] == 0 && levels[k + 1] == 2;
    hide ManyOpeners, OpenersLevels, SpanEnd;
  }

  lemma CutInTwo(types: seq<BidiClass>, levels: seq<Level>, mid: nat)
    requires 0 < mid < |types| == |levels|
    requires SpanEnd(types, levels, 0, NO_LEVEL) == mid && SpanEnd(types, levels, mid, NO_LEVEL) == |types|
    requires FirstLevel(levels, 0) == 0 && FirstLevel(levels, mid) == 2
    ensures TextOf(types, levels, 0).runs
            == [LevelRun(0, mid, mid, 0, 0, L, L), LevelRun(mid, |types|, |types| - mid, 0, 2, L, L)]
  {
    hide SpanEnd, FirstLevel;
    var first, second := LevelRun(0, mid, mid, 0, 0, ON, ON), LevelRun(mid, |types|, |types| - mid, 0, 2, ON, ON);
    assert RunsFrom(types, levels, mid) == [second];
    assert RunsFrom(types, levels, 0) == [first, second];
    var runs := [first, second];
    assert SorEor(runs, 0, 0) == first.(sor := L, eor := L);
    assert SorEor(runs, 0, 1) == second.(sor := L, eor := L);
  }

  lemma TwoSequences(text: Text)
    requires TextOk(text) && |text.runs| == 2 && !EndsInInitiator(text, 0) && !EndsInInitiator(text, 1)
    ensures Sequences(text, {}, 0) == [[0], [1]]
  {
    hide EndsInInitiator, Chain;
    assert SequenceFrom(text, {}, 0) == [0];
    var taken := {} + AsSet([0]);
    assert 1 !in taken && SequenceFrom(text, taken, 1) == [1];
    assert Sequences(text, taken + AsSet([1]), 2) == [];
    assert Sequences(text, taken, 1) == [[1]];
  }

  lemma OneRun(text: Text, base: Level, x: nat)
    requires TextOk(text) && x < |text.runs| && !EndsInInitiator(text, x) && RunInText(text, x)
    ensures MembersInText(text, [x])
    ensures var run, s := text.runs[x], BuildSequence(text, base, [x]);
            s.level == run.level && s.sos == run.sor && s.eos == run.eor && s.indices == Span(run.start, run.end)
  {
    assert [x][..0] == [];
    assert IndicesOf(text, []) == [];
    hide EndsInInitiator;
  }

  ghost predicate AreTheSequences(seqs: seq<IsoSeq>, k: nat) {
    && |seqs| == 2
    && seqs[0].indices == Span(0, k + 1)
    && seqs[1].indices == Span(k + 1, k + 6)
    && seqs[1].level == 2 && seqs[1].sos == seqs[1].eos == L
  }

  lemma OpenersSequences(types: seq<BidiClass>, levels: seq<Level>, k: nat)
    requires types == ManyOpeners() && k == 64 && levels == OpenersLevels(k) && |types| == |levels|
    ensures AreTheSequences(SequencesOfText(types, levels, 0), k)
  {
    var text := TextOf(types, levels, 0);
    OpenersSpans(types, levels, k);
    OpenersAre(types, k);
    hide ManyOpeners, OpenersLevels, SpanEnd, FirstLevel, Sequences, BuildSequence, Span;
    CutInTwo(types, levels, k + 1);
    assert text.types == types && text.levels == levels;
    TextOfIsTiled(types, levels, 0);
    hide TextOf;
    assert RunInText(text, 0) && RunInText(text, 1);
    assert !EndsInInitiator(text, 0) && !EndsInInitiator(text, 1);
    TwoSequences(text);
    OneRun(text, 0, 0);
    OneRun(text, 0, 1);
    hide TextOk, EndsInInitiator, Tiled;
  }

  // Their chains.

  /** At least 64 opening brackets, and nothing before them. */
  ghost predicate OpensTooMany(c: Ctx, cls: seq<BidiClass>) {
    && 64 <= |cls| == |c.chars|
    && forall p: nat :: p < 64 ==> cls[p] == ON && c.chars[p].bracket == Some(BracketEntry(')', true))
  }

  lemma {:induction false} ScanOpens(c: Ctx, cls: seq<BidiClass>, n: nat)
    requires OpensTooMany(c, cls) && n < 64
    ensures PairScan(c, cls, n).Some? && |PairScan(c, cls, n).value.open| == n
  {
    if n > 0 {
      ScanOpens(c, cls, n - 1);
    }
  }

  lemma {:induction false} ScanStays(c: Ctx, cls: seq<BidiClass>, n: nat, m: nat)
    requires m <= n <= |cls| == |c.chars| && PairScan(c, cls, m).None?
    ensures PairScan(c, cls, n).None?
  {
    if m < n {
      ScanStays(c, cls, n - 1, m);
    }
  }

  lemma TooManyOverflow(c: Ctx, cls: seq<BidiClass>, n: nat)
    requires OpensTooMany(c, cls) && n == 64
    ensures Overflows(c, cls)
  {
    ScanOpens(c, cls, n - 1);
    assert PairScan(c, cls, n) == PairStep(c, cls, PairScan(c, cls, n - 1).value, n - 1);
    ScanStays(c, cls, |cls|, n);
  }

  /** R ( R ) L at level 2. */
  ghost predicate HoldsPair(c: Ctx, cls: seq<BidiClass>) {
    && |cls| == |c.levels| == |c.orig| == |c.chars| == 5
    && cls[0] == R && cls[1] == ON && cls[2] == R && cls[3] == ON && cls[4] == L
    && c.level == 2 && (forall p: nat :: p < 5 ==> c.levels[p] == 2 && c.orig[p] != NSM)
    && c.chars[1].bracket == Some(BracketEntry(')', true))
    && c.chars[3] == ParaChar(')', ON, Some(BracketEntry('(', false)))
  }

  lemma PairIsFound(c: Ctx, cls: seq<BidiClass>)
    requires HoldsPair(c, cls)
    ensures PairScan(c, cls, 5) == Some(PairState([], [Pair(1, 3)]))
  {
    var open := [Opener(')', 1)];
    assert PairScan(c, cls, 1) == Some(PairState([], []));
    var none: seq<Opener>, pairs: seq<Pair> := [], [];
    assert none + open == open && pairs + [Pair(1, 3)] == [Pair(1, 3)];
    assert PairStep(c, cls, PairState(none, pairs), 1) == Some(PairState(open, pairs));
    assert PairScan(c, cls, 2) == Some(PairState(open, []));
    assert PairScan(c, cls, 3) == Some(PairState(open, []));
    assert Seek(open, ')', 1) == 0;
    assert open[..0] == [];
    assert PairStep(c, cls, PairState(open, pairs), 3) == Some(PairState(none, [Pair(1, 3)]));
    assert PairScan(c, cls, 4) == Some(PairState([], [Pair(1, 3)]));
  }

  lemma PairIsRightToLeft(c: Ctx, cls: seq<BidiClass>)
    requires HoldsPair(c, cls)
    ensures PairDirection(c, cls, Pair(1, 3)) == Some(Rtl)
  {
    assert !HasDirection(cls, 2, 3, Ltr);
    assert StrongDirection(cls[2]) == Some(Rtl);
    assert HasDirection(cls, 2, 3, Rtl);
    assert PriorDirection(c, cls, 1) == Some(Rtl);
  }

  /** N0 makes both brackets R. */
  lemma PairIsSet(c: Ctx, cls: seq<BidiClass>)
    requires HoldsPair(c, cls) && Sized(c, cls)
    ensures !Overflows(c, cls) && |Apply(RuleN0, c, cls)| == 5 && Apply(RuleN0, c, cls)[3] == R
  {
    PairIsFound(c, cls);
    PairIsRightToLeft(c, cls);
    var p := Pair(1, 3);
    assert SortPairs([p]) == [p];
    hide PairScan, PairDirection, SortPairs, HoldsPair;
    assert PairsOf(c, cls) == [p];
    assert ResolvePairs(c, cls, [p], 1) == ResolvePair(c, ResolvePairs(c, cls, [p], 0), p);
  }

  /** Without N0 the closing bracket is between R and L, and gets the direction of the level. */
  lemma PairIsSplit(c: Ctx, cls: seq<BidiClass>)
    requires HoldsPair(c, cls)
    ensures N2(c, N1(c, cls))[3] == L
  {
    assert PriorDirection(c, cls, 3) == Some(Rtl);
    assert FollowingDirection(c, cls, 4) == Some(Ltr);
    assert N1(c, cls)[3] == ON;
  }

  lemma LetterStays(c: Ctx, cls: seq<BidiClass>, k: nat)
    requires |cls| == |c.levels| && k < |cls| && cls[k] == R
    ensures N2(c, N1(c, cls))[k] == R
  {
    hide PriorDirection, FollowingDirection;
  }

  // Its result.

  lemma OpenersReadable(types: seq<BidiClass>, k: nat)
    requires types == ManyOpeners() && k == 64
    ensures Readable(0, types, OpenersParagraph()) && OpenersParagraph() != []
    ensures Classes(MAX_DEPTH, 0, types) == types && Levels(MAX_DEPTH, 0, types) == OpenersLevels(k)
    ensures AreTheSequences(ExplicitSequences(0, types), k) && |types| == |OpenersLevels(k)| == |OpenersParagraph()| == k + 6
  {
    OpenersExplicit(types, k);
    OpenersAre(types, k);
    OpenersSequences(types, OpenersLevels(k), k);
    assert |OpenersParagraph()| == k + 6;
    hide ManyOpeners, OpenersParagraph, OpenersLevels, Completes, AreTheSequences, SequencesOfText;
  }

  lemma FirstChainOverflows(types: seq<BidiClass>, levels: seq<Level>, s: IsoSeq, k: nat)
    requires types == ManyOpeners() && k == 64 && levels == OpenersLevels(k) && |types| == |levels| == |OpenersParagraph()| == k + 6
    requires s.indices == Span(0, k + 1)
    ensures InRange(s, |types|) && OpenersParagraph() != []
    ensures var c, cls := CtxOf(Env(levels, types, OpenersParagraph()), s), Gather(types, s.indices);
            |cls| == |c.chars| && c.chars != [] && Overflows(c, cls) && AllStill(cls)
  {
    OpenersAre(types, k);
    var c, cls := CtxOf(Env(levels, types, OpenersParagraph()), s), Gather(types, s.indices);
    assert forall p: nat :: p < k ==> cls[p] == ON && c.chars[p].bracket == Some(BracketEntry(')', true));
    assert cls[k] == LRE;
    TooManyOverflow(c, cls, k);
    hide ManyOpeners, OpenersParagraph, Overflows;
  }

  lemma SecondParagraph(types: seq<BidiClass>, levels: seq<Level>, k: nat)
    requires types == ManyOpeners() && k == 64 && levels == OpenersLevels(k)
    ensures |types| == |levels| == |OpenersParagraph()| == k + 6
    ensures forall p: nat :: k < p < k + 6 ==> levels[p] == 2 && types[p] != NSM && IsStill(types[p])
    ensures OpenersParagraph()[k + 2].bracket == Some(BracketEntry(')', true))
    ensures OpenersParagraph()[k + 4] == ParaChar(')', ON, Some(BracketEntry('(', false)))
  {
    OpenersAre(types, k);
  }

  lemma SecondChainAt(env: Env, s: IsoSeq, k: nat)
    requires |env.levels| == |env.orig| == |env.paragraph| == k + 6 && s.indices == Span(k + 1, k + 6) && s.level == 2
    ensures InRange(s, k + 6)
    ensures var c, cls := CtxOf(env, s), Gather(env.orig, s.indices);
            && |cls| == |c.levels| == |c.orig| == |c.chars| == 5 && c.level == 2 && Sized(c, cls)
            && (forall p: nat :: p < 5 ==> cls[p] == c.orig[p] == env.orig[k + 1 + p])
            && (forall p: nat :: p < 5 ==> c.levels[p] == env.levels[k + 1 + p])
            && (forall p: nat :: p < 5 ==> c.chars[p] == env.paragraph[k + 1 + p])
  {
    assert forall p: nat :: p < 5 ==> s.indices[p] == k + 1 + p;
  }

  lemma SecondChainHoldsPair(types: seq<BidiClass>, levels: seq<Level>, s: IsoSeq, k: nat)
    requires types == ManyOpeners() && k == 64 && levels == OpenersLevels(k) && |types| == |levels| == |OpenersParagraph()| == k + 6
    requires s.indices == Span(k + 1, k + 6) && s.level == 2
    ensures InRange(s, |types|) && OpenersParagraph() != []
    ensures var c, cls := CtxOf(Env(levels, types, OpenersParagraph()), s), Gather(types, s.indices);
            HoldsPair(c, cls) && Sized(c, cls) && AllStill(cls)
  {
    var paragraph := OpenersParagraph();
    hide ManyOpeners, OpenersParagraph, OpenersLevels, Span, CtxOf, Gather, InRange, Sized, IsStill;
    OpenersAre(types, k);
    SecondParagraph(types, levels, k);
    SecondChainAt(Env(levels, types, paragraph), s, k);
    var c := CtxOf(Env(levels, types, paragraph), s);
    assert c.chars[1] == paragraph[k + 2] && c.chars[3] == paragraph[k + 4];
  }

  /** W1-W7 have nothing to do in a still chain of a paragraph that X1-X9 leave as it is. */
  lemma ChainAtBrackets(base: Level, types: seq<BidiClass>, paragraph: seq<ParaChar>, a: nat, last: nat)
    requires Readable(base, types, paragraph) && Classes(MAX_DEPTH, base, types) == types && last == BRACKET_STAGE - 1
    requires a < |ExplicitSequences(base, types)| && InRange(ExplicitSequences(base, types)[a], |types|)
    requires AllStill(Gather(types, ExplicitSequences(base, types)[a].indices))
    ensures ChainClasses(base, types, paragraph, a, last) == Gather(types, ExplicitSequences(base, types)[a].indices)
  {
    ExplicitEnvOk(base, types, paragraph);
    var env, seqs := ExplicitEnv(base, types, paragraph), ExplicitSequences(base, types);
    assert EnvSized(env, seqs, types);
    var cls := Gather(types, seqs[a].indices);
    assert cls == After(0, env, seqs, types, a);
    WeakRulesRest(last, env, seqs, types, a, cls);
    hide EnvOk, EnvSized, After, ExplicitEnv, ExplicitSequences, Classes, AllStill, Gather;
  }

  lemma ChainIs(base: Level, types: seq<BidiClass>, paragraph: seq<ParaChar>, a: nat)
    requires Readable(base, types, paragraph) && a < |ExplicitSequences(base, types)|
    ensures var levels, s := Levels(MAX_DEPTH, base, types), ExplicitSequences(base, types)[a];
            && InRange(s, |types|) && |levels| == |types| && (paragraph == [] || |paragraph| == |types|)
            && ChainOf(base, types, paragraph, a) == CtxOf(Env(levels, types, paragraph), s)
  {
    ExplicitEnvOk(base, types, paragraph);
    assert EnvSized(ExplicitEnv(base, types, paragraph), ExplicitSequences(base, types), Classes(MAX_DEPTH, base, types));
    hide EnvOk, ExplicitSequences, Levels, CtxOf, SequencesOk;
  }

  lemma FirstInText(types: seq<BidiClass>, k: nat, a: nat, last: nat)
    requires types == ManyOpeners() && k == 64 && a == 0 && last == BRACKET_STAGE - 1
    requires Readable(0, types, OpenersParagraph()) && a < |ExplicitSequences(0, types)|
    ensures OverflowsIn(0, types, OpenersParagraph(), a)
  {
    OpenersReadable(types, k);
    var seqs, levels, paragraph := ExplicitSequences(0, types), OpenersLevels(k), OpenersParagraph();
    assert seqs[a].indices == Span(0, k + 1);
    hide ManyOpeners, OpenersParagraph, OpenersLevels, Readable, Levels, Classes, ExplicitSequences, Span, AreTheSequences,
         ChainOf, ChainClasses, Overflows, AllStill, CtxOf, Gather;
    FirstChainOverflows(types, levels, seqs[a], k);
    ChainIs(0, types, paragraph, a);
    ChainAtBrackets(0, types, paragraph, a, last);
  }

  lemma SecondInText(types: seq<BidiClass>, k: nat, a: nat, last: nat)
    requires types == ManyOpeners() && k == 64 && a == 1 && last == BRACKET_STAGE - 1
    requires Readable(0, types, OpenersParagraph()) && a < |ExplicitSequences(0, types)|
    ensures var c, cls := ChainOf(0, types, OpenersParagraph(), a), ChainClasses(0, types, OpenersParagraph(), a, last);
            HoldsPair(c, cls) && Sized(c, cls)
  {
    OpenersReadable(types, k);
    var seqs, levels, paragraph := ExplicitSequences(0, types), OpenersLevels(k), OpenersParagraph();
    assert seqs[a].indices == Span(k + 1, k + 6) && seqs[a].level == 2;
    hide ManyOpeners, OpenersParagraph, OpenersLevels, Readable, Levels, Classes, ExplicitSequences, Span, AreTheSequences,
         ChainOf, ChainClasses, HoldsPair, Sized, AllStill, CtxOf, Gather;
    SecondChainHoldsPair(types, levels, seqs[a], k);
    ChainIs(0, types, paragraph, a);
    ChainAtBrackets(0, types, paragraph, a, last);
  }

  /** The brackets of the second sequence as the source resolves them, and as N0 would. */
  ghost predicate PairIsSilenced(types: seq<BidiClass>, paragraph: seq<ParaChar>, classes: seq<BidiClass>)
    requires Readable(0, types, paragraph) && |ExplicitSequences(0, types)| == 2 && |classes| == 70
  {
    var c, cls := ChainOf(0, types, paragraph, 1), ChainClasses(0, types, paragraph, 1, BRACKET_STAGE - 1);
    && |cls| == 5 && c.chars != [] && !Overflows(c, cls)
    && N2(c, N1(c, Apply(RuleN0, c, cls)))[3] == R
    && classes[68] == L
  }

  /** The 64th opening bracket of the first sequence ends N0 for the second one too: its brackets stay as
      they are, and the closing one comes out as L, though N0 would have made it R. */
  lemma OverflowSilencesLaterPairs(classes: seq<BidiClass>, levels: seq<Level>)
    requires Readable(0, ManyOpeners(), OpenersParagraph())
    requires IsResolution(0, ManyOpeners(), OpenersParagraph(), classes, levels)
    ensures var types, seqs := ManyOpeners(), ExplicitSequences(0, ManyOpeners());
            && |seqs| == 2 && |classes| == 70 && seqs[1].indices == Span(65, 70)
            && OverflowsIn(0, types, OpenersParagraph(), 0)
            && PairIsSilenced(types, OpenersParagraph(), classes)
  {
    var types, paragraph, k, last := ManyOpeners(), OpenersParagraph(), 64, BRACKET_STAGE - 1;
    var seqs := ExplicitSequences(0, types);
    OpenersReadable(types, k);
    assert |seqs| == 2 && seqs[1].indices == Span(k + 1, k + 6) && |types| == k + 6;
    assert Span(k + 1, k + 6)[3] == k + 4 && |Span(k + 1, k + 6)| == 5;
    hide ManyOpeners, OpenersParagraph, OpenersLevels, Readable, ExplicitSequences, Span, AreTheSequences, IsResolution,
         ChainOf, ChainClasses, HoldsPair, Sized, Overflows, Apply, N1, N2, OverflowsIn;
    FirstInText(types, k, 0, last);
    SecondInText(types, k, 1, last);
    SkippedAfter(0, types, paragraph, 1, 0, last + 1);
    var c, cls := ChainOf(0, types, paragraph, 1), ChainClasses(0, types, paragraph, 1, last);
    PairIsSet(c, cls);
    PairIsSplit(c, cls);
    LetterStays(c, Apply(RuleN0, c, cls), 3);
    FinalClassOf(0, types, paragraph, classes, levels, 1, 3);
  }
}
