/** Nonspacing marks after isolate controls: the source and W1 of UAX #9 give them different classes,
    which no later rule tells apart. */
module IsolateMarks {
  import opened BidiTypes
  import opened Explicit
  import opened Runs
  import opened Chains
  import opened Weak
  import opened WeakFacts
  import opened Neutral
  import opened Brackets
  import opened BracketFacts
  import opened Passes
  import opened Resolution
  import opened Outcome

  /** W1 in the words of UAX #9: a mark becomes ON after an isolate initiator or PDI, and otherwise takes
      the class the character before it has been given. */
  function UaxMarkAt(c: Ctx, cls: seq<BidiClass>, k: nat): BidiClass
    requires k < |cls| == |c.levels|
  {
    if cls[k] != NSM then cls[k]
    else
      var p := PrevKept(c.levels, k);
      if p < 0 then c.sos
      else if IsIsoControl(cls[p]) then ON
      else UaxMarkAt(c, cls, p)
  }

  function UaxW1(c: Ctx, cls: seq<BidiClass>): (out: seq<BidiClass>)
    requires |cls| == |c.levels|
  {
    seq(|cls|, k requires 0 <= k < |cls| => UaxMarkAt(c, cls, k))
  }

  /** The character before the mark at `k` is an isolate initiator or PDI. */
  predicate MarksIsolate(c: Ctx, cls: seq<BidiClass>, k: nat)
    requires k < |cls| == |c.levels|
  {
    var p := PrevKept(c.levels, k);
    cls[k] == NSM && p >= 0 && IsIsoControl(cls[p])
  }

  ghost predicate NoMarkedIsolate(c: Ctx, cls: seq<BidiClass>)
    requires |cls| == |c.levels|
  {
    forall k: nat :: k < |cls| ==> !MarksIsolate(c, cls, k)
  }

  /** Where there is no such mark, up to `k`, the two forms of W1 agree. */
  lemma {:induction false} MarkAgrees(c: Ctx, cls: seq<BidiClass>, k: nat)
    requires CtxOk(c, cls) && k < |cls|
    ensures W1(c, cls)[k] == UaxMarkAt(c, cls, k) || (IsIsoControl(W1(c, cls)[k]) && UaxMarkAt(c, cls, k) == ON && cls[k] == NSM)
    ensures NoMarkedIsolate(c, cls) ==> W1(c, cls)[k] == UaxMarkAt(c, cls, k)
  {
    MarkTakesPrevious(c, cls, k);
    var p := PrevKept(c.levels, k);
    if cls[k] == NSM && p >= 0 {
      MarkTakesPrevious(c, cls, p);
      assert NoMarkedIsolate(c, cls) ==> !MarksIsolate(c, cls, k);
      hide CtxOk, NoMarkedIsolate, W1;
      if IsIsoControl(cls[p]) {
      } else {
        MarkAgrees(c, cls, p);
      }
    }
  }

  /** The source's W1 is that of UAX #9 exactly when no mark comes right after an isolate control. */
  lemma W1AgreesIff(c: Ctx, cls: seq<BidiClass>)
    requires CtxOk(c, cls)
    ensures W1(c, cls) == UaxW1(c, cls) <==> NoMarkedIsolate(c, cls)
  {
    if NoMarkedIsolate(c, cls) {
      forall k: nat | k < |cls| ensures W1(c, cls)[k] == UaxW1(c, cls)[k] {
        MarkAgrees(c, cls, k);
      }
    } else {
      var k: nat :| k < |cls| && MarksIsolate(c, cls, k);
      MarkTakesPrevious(c, cls, k);
      MarkTakesPrevious(c, cls, PrevKept(c.levels, k));
      assert UaxW1(c, cls)[k] == ON;
    }
  }

  // ----- the later rules -----

  /** Equal, but for marks that are an isolate control on one side and ON on the other. */
  ghost predicate Alike(c: Ctx, a: seq<BidiClass>, b: seq<BidiClass>) {
    && |a| == |b| == |c.levels| == |c.orig|
    && forall k :: 0 <= k < |a| ==> AlikeAt(c, a, b, k)
  }

  ghost predicate AlikeAt(c: Ctx, a: seq<BidiClass>, b: seq<BidiClass>, k: nat)
    requires k < |a| == |b| == |c.orig|
  {
    a[k] == b[k] || (IsIsoControl(a[k]) && b[k] == ON && c.orig[k] == NSM)
  }

  lemma {:induction false} SameStrong(c: Ctx, a: seq<BidiClass>, b: seq<BidiClass>, k: nat)
    requires Alike(c, a, b) && k <= |a|
    ensures LastStrong(c.sos, a, k) == LastStrong(c.sos, b, k) && LastLetter(c.sos, a, k) == LastLetter(c.sos, b, k)
  {
    if k > 0 {
      SameStrong(c, a, b, k - 1);
      assert AlikeAt(c, a, b, k - 1);
    }
  }

  lemma AlikeW2(c: Ctx, a: seq<BidiClass>, b: seq<BidiClass>)
    requires Alike(c, a, b)
    ensures Alike(c, W2(c, a), W2(c, b)) && Alike(c, W3(c, a), W3(c, b))
    ensures Alike(c, W6(c, a), W6(c, b)) && Alike(c, W7(c, a), W7(c, b))
  {
    forall k: nat | k < |a|
      ensures AlikeAt(c, W2(c, a), W2(c, b), k) && AlikeAt(c, W3(c, a), W3(c, b), k)
      ensures AlikeAt(c, W6(c, a), W6(c, b), k) && AlikeAt(c, W7(c, a), W7(c, b), k)
    {
      SameStrong(c, a, b, k);
      assert AlikeAt(c, a, b, k);
      hide LastStrong, LastLetter, Alike;
    }
  }

  lemma AlikeW4(c: Ctx, a: seq<BidiClass>, b: seq<BidiClass>)
    requires Alike(c, a, b)
    ensures Alike(c, W4(c, a), W4(c, b))
  {
    forall k: nat | k < |a| ensures AlikeAt(c, W4(c, a), W4(c, b), k) {
      assert AlikeAt(c, a, b, k);
      SameNeighbours(c, a, b, k);
      hide Between, Alike;
    }
  }

  lemma SameNeighbours(c: Ctx, a: seq<BidiClass>, b: seq<BidiClass>, k: nat)
    requires Alike(c, a, b) && k < |a|
    ensures Between(c.levels, a, k, EN) <==> Between(c.levels, b, k, EN)
    ensures Between(c.levels, a, k, AN) <==> Between(c.levels, b, k, AN)
  {
    var p, n := PrevKept(c.levels, k), NextKept(c.levels, k + 1);
    if p >= 0 && n < |a| {
      assert AlikeAt(c, a, b, p) && AlikeAt(c, a, b, n);
    }
    hide Alike;
  }

  lemma SameTerminators(c: Ctx, a: seq<BidiClass>, b: seq<BidiClass>, lo: int, hi: int)
    requires Alike(c, a, b)
    ensures AllEt(c, a, lo, hi) <==> AllEt(c, b, lo, hi)
  {
    forall m | 0 <= lo <= m < hi <= |a| ensures a[m] == ET <==> b[m] == ET {
      assert AlikeAt(c, a, b, m);
    }
  }

  lemma TouchesAlike(c: Ctx, a: seq<BidiClass>, b: seq<BidiClass>, k: nat)
    requires Alike(c, a, b) && k < |a|
    ensures TouchesEn(c, a, k) <==> TouchesEn(c, b, k)
  {
    forall j: nat | j < |a|
      ensures (a[j] == EN <==> b[j] == EN)
      ensures (AllEt(c, a, j + 1, k) <==> AllEt(c, b, j + 1, k)) && (AllEt(c, a, k + 1, j) <==> AllEt(c, b, k + 1, j))
    {
      assert AlikeAt(c, a, b, j);
      hide Alike, AllEt;
      SameTerminators(c, a, b, j + 1, k);
      SameTerminators(c, a, b, k + 1, j);
    }
    hide Alike, AllEt;
  }

  lemma AlikeW5(c: Ctx, a: seq<BidiClass>, b: seq<BidiClass>)
    requires Alike(c, a, b)
    ensures Alike(c, W5(c, a), W5(c, b))
  {
    forall k: nat | k < |a| ensures AlikeAt(c, W5(c, a), W5(c, b), k) {
      assert AlikeAt(c, a, b, k);
      TouchesAlike(c, a, b, k);
      hide TouchesEn, Alike;
    }
  }

  ghost function WeakRules(c: Ctx, cls: seq<BidiClass>): (out: seq<BidiClass>)
    requires |cls| == |c.levels|
    ensures |out| == |cls|
  {
    W7(c, W6(c, W5(c, W4(c, W3(c, W2(c, cls))))))
  }

  lemma AlikeWeak(c: Ctx, a: seq<BidiClass>, b: seq<BidiClass>)
    requires Alike(c, a, b)
    ensures Alike(c, WeakRules(c, a), WeakRules(c, b))
  {
    var a2, b2 := W2(c, a), W2(c, b);
    var a3, b3 := W3(c, a2), W3(c, b2);
    var a4, b4 := W4(c, a3), W4(c, b3);
    var a5, b5 := W5(c, a4), W5(c, b4);
    hide Alike, W2, W3, W4, W5, W6, W7;
    AlikeW2(c, a, b);
    AlikeW2(c, a2, b2);
    AlikeW4(c, a3, b3);
    AlikeW5(c, a4, b4);
    AlikeW2(c, a5, b5);
    AlikeW2(c, W6(c, a5), W6(c, b5));
  }

  lemma SameBrackets(c: Ctx, a: seq<BidiClass>, b: seq<BidiClass>, k: nat)
    requires Alike(c, a, b) && BracketsAreNoMarks(c) && k < |a| == |c.chars|
    ensures IsOpener(c, a, k) <==> IsOpener(c, b, k)
    ensures IsCloser(c, a, k) <==> IsCloser(c, b, k)
  {
    assert AlikeAt(c, a, b, k);
    hide Alike;
  }

  lemma {:induction false} SameScan(c: Ctx, a: seq<BidiClass>, b: seq<BidiClass>, k: nat)
    requires Alike(c, a, b) && BracketsAreNoMarks(c) && k <= |a| == |c.chars|
    ensures |a| == |b| && PairScan(c, a, k) == PairScan(c, b, k)
  {
    assert |a| == |b|;
    hide Alike, BracketsAreNoMarks, IsOpener, IsCloser;
    if k > 0 {
      SameScan(c, a, b, k - 1);
      SameBrackets(c, a, b, k - 1);
    }
  }

  lemma SameSide(c: Ctx, a: seq<BidiClass>, b: seq<BidiClass>, k: nat)
    requires Alike(c, a, b) && k < |a|
    ensures |a| == |b| == |c.levels|
    ensures StrongDirection(a[k]) == StrongDirection(b[k]) && (Skipped(c, a, k) <==> Skipped(c, b, k))
  {
    assert AlikeAt(c, a, b, k);
    hide Alike;
  }

  lemma {:induction false} SamePrior(c: Ctx, a: seq<BidiClass>, b: seq<BidiClass>, k: nat)
    requires Alike(c, a, b) && k <= |a|
    ensures |a| == |b| && PriorDirection(c, a, k) == PriorDirection(c, b, k)
  {
    assert |a| == |b| == |c.levels|;
    hide Alike, StrongDirection, Skipped;
    if k > 0 {
      SameSide(c, a, b, k - 1);
      SamePrior(c, a, b, k - 1);
    }
  }

  lemma {:induction false} SameFollowing(c: Ctx, a: seq<BidiClass>, b: seq<BidiClass>, k: nat)
    requires Alike(c, a, b) && k <= |a|
    ensures |a| == |b| && FollowingDirection(c, a, k) == FollowingDirection(c, b, k)
    decreases |a| - k
  {
    assert |a| == |b| == |c.levels|;
    hide Alike, StrongDirection, Skipped;
    if k < |a| {
      SameSide(c, a, b, k);
      SameFollowing(c, a, b, k + 1);
    }
  }

  lemma SameInside(c: Ctx, a: seq<BidiClass>, b: seq<BidiClass>, lo: nat, hi: nat, d: Direction)
    requires Alike(c, a, b) && hi <= |a|
    ensures |a| == |b| && (HasDirection(a, lo, hi, d) <==> HasDirection(b, lo, hi, d))
  {
    forall k: nat | k < |a| ensures StrongDirection(a[k]) == StrongDirection(b[k]) {
      assert AlikeAt(c, a, b, k);
    }
  }

  lemma SamePairDirection(c: Ctx, a: seq<BidiClass>, b: seq<BidiClass>, p: Pair)
    requires Alike(c, a, b) && p.opening < p.closing < |a|
    ensures |a| == |b| == |c.levels| && PairDirection(c, a, p) == PairDirection(c, b, p)
  {
    var e := LevelDirection(c.level);
    assert |a| == |b| == |c.levels|;
    hide Alike, HasDirection, PriorDirection;
    SameInside(c, a, b, p.opening + 1, p.closing, e);
    SameInside(c, a, b, p.opening + 1, p.closing, e.Opposite());
    SamePrior(c, a, b, p.opening);
  }

  lemma AlikePair(c: Ctx, a: seq<BidiClass>, b: seq<BidiClass>, p: Pair)
    requires Alike(c, a, b) && p.opening < p.closing < |a|
    ensures |a| == |b| == |c.levels| == |c.orig|
    ensures Alike(c, ResolvePair(c, a, p), ResolvePair(c, b, p))
  {
    SamePairDirection(c, a, b, p);
    match PairDirection(c, a, p)
    case None =>
    case Some(d) =>
      var x, y := SetPair(c, a, p, d), SetPair(c, b, p, d);
      forall k: nat | k < |a| ensures AlikeAt(c, x, y, k) {
        assert AlikeAt(c, a, b, k);
        assert x[k] == SetPairAt(c, a, p, d.AsClass(), k) && y[k] == SetPairAt(c, b, p, d.AsClass(), k);
        hide Alike, MarksFollow;
      }
  }

  lemma {:induction false} AlikePairs(c: Ctx, a: seq<BidiClass>, b: seq<BidiClass>, pairs: seq<Pair>, m: nat)
    requires Alike(c, a, b) && m <= |pairs| && PairsIn(pairs, |a|)
    ensures |a| == |b| == |c.levels| == |c.orig|
    ensures Alike(c, ResolvePairs(c, a, pairs, m), ResolvePairs(c, b, pairs, m))
  {
    assert |a| == |b| == |c.levels| == |c.orig|;
    if m > 0 {
      AlikePairs(c, a, b, pairs, m - 1);
      hide Alike, ResolvePair;
      AlikePair(c, ResolvePairs(c, a, pairs, m - 1), ResolvePairs(c, b, pairs, m - 1), pairs[m - 1]);
    }
  }

  /** N0 stops on both or on neither, and resolves the same pairs. */
  lemma AlikeN0(c: Ctx, a: seq<BidiClass>, b: seq<BidiClass>)
    requires Alike(c, a, b) && BracketsAreNoMarks(c) && Sized(c, a)
    ensures Sized(c, b) && Alike(c, Apply(RuleN0, c, a), Apply(RuleN0, c, b))
    ensures c.chars != [] ==> (Overflows(c, a) <==> Overflows(c, b))
  {
    assert Sized(c, b);
    if c.chars != [] {
      SameScan(c, a, b, |a|);
      if !Overflows(c, a) {
        hide Alike, Overflows, ResolvePairs, BracketsAreNoMarks, PairScan, SortPairs;
        assert PairsOf(c, a) == PairsOf(c, b);
        AlikePairs(c, a, b, PairsOf(c, a), |PairsOf(c, a)|);
      }
    }
  }

  lemma SameNeutrals(c: Ctx, a: seq<BidiClass>, b: seq<BidiClass>)
    requires Alike(c, a, b)
    ensures |a| == |b| == |c.levels| && N2(c, N1(c, a)) == N2(c, N1(c, b))
  {
    assert |a| == |b| == |c.levels|;
    forall k: nat | k < |a| ensures N2(c, N1(c, a))[k] == N2(c, N1(c, b))[k] {
      SamePrior(c, a, b, k);
      SameFollowing(c, a, b, k + 1);
      assert AlikeAt(c, a, b, k);
      hide Alike, PriorDirection, FollowingDirection;
    }
  }

  /** W2-N2; N0 does not get to every sequence. */
  ghost function LaterRules(c: Ctx, cls: seq<BidiClass>, n0: bool): seq<BidiClass>
    requires Sized(c, cls)
  {
    var weak := WeakRules(c, cls);
    var paired := if n0 then Apply(RuleN0, c, weak) else weak;
    N2(c, N1(c, paired))
  }

  lemma LaterRulesAlike(c: Ctx, a: seq<BidiClass>, b: seq<BidiClass>, n0: bool)
    requires Alike(c, a, b) && BracketsAreNoMarks(c) && Sized(c, a) && Sized(c, b)
    ensures LaterRules(c, a, n0) == LaterRules(c, b, n0)
  {
    var x, y := WeakRules(c, a), WeakRules(c, b);
    hide Alike, BracketsAreNoMarks, WeakRules, Apply, N1, N2, Overflows;
    AlikeWeak(c, a, b);
    AlikeN0(c, x, y);
    SameNeutrals(c, if n0 then Apply(RuleN0, c, x) else x, if n0 then Apply(RuleN0, c, y) else y);
  }

  /** Whichever W1 comes first, the later rules end with the same classes. */
  lemma EitherW1WillDo(c: Ctx, cls: seq<BidiClass>, n0: bool)
    requires CtxOk(c, cls) && BracketsAreNoMarks(c)
    requires forall k :: 0 <= k < |cls| && cls[k] == NSM ==> c.orig[k] == NSM
    ensures LaterRules(c, W1(c, cls), n0) == LaterRules(c, UaxW1(c, cls), n0)
  {
    var a, b := W1(c, cls), UaxW1(c, cls);
    assert Sized(c, a) && Sized(c, b);
    forall k: nat | k < |cls| ensures AlikeAt(c, a, b, k) {
      MarkAgrees(c, cls, k);
    }
    hide CtxOk, BracketsAreNoMarks, W1, UaxW1, LaterRules, AlikeAt;
    LaterRulesAlike(c, a, b, n0);
  }

  // ----- the result of `resolve` -----

  lemma FirstStages(env: Env, seqs: seq<IsoSeq>, types: seq<BidiClass>, a: nat)
    requires EnvSized(env, seqs, types) && a < |seqs|
    ensures var c := CtxOf(env, seqs[a]);
            After(4, env, seqs, types, a) == W4(c, W3(c, W2(c, After(1, env, seqs, types, a))))
  {
    hide EnvSized, After, CtxOf, W2, W3, W4;
    AfterStep(2, env, seqs, types, a);
    AfterStep(3, env, seqs, types, a);
    AfterStep(4, env, seqs, types, a);
  }

  lemma LastStages(env: Env, seqs: seq<IsoSeq>, types: seq<BidiClass>, a: nat)
    requires EnvSized(env, seqs, types) && a < |seqs|
    ensures var c := CtxOf(env, seqs[a]);
            After(7, env, seqs, types, a) == W7(c, W6(c, W5(c, After(4, env, seqs, types, a))))
  {
    hide EnvSized, After, CtxOf, W5, W6, W7;
    AfterStep(5, env, seqs, types, a);
    AfterStep(6, env, seqs, types, a);
    AfterStep(7, env, seqs, types, a);
  }

  lemma StagesAreRules(env: Env, seqs: seq<IsoSeq>, types: seq<BidiClass>, a: nat)
    requires EnvSized(env, seqs, types) && a < |seqs|
    ensures var c := CtxOf(env, seqs[a]);
            After(7, env, seqs, types, a) == WeakRules(c, W1(c, After(0, env, seqs, types, a)))
  {
    hide EnvSized, After, CtxOf, W1, W2, W3, W4, W5, W6, W7;
    FirstRule(env, seqs, types, a);
    FirstStages(env, seqs, types, a);
    LastStages(env, seqs, types, a);
  }

  /** After X1-X9 a mark is a character that was one in the first place. */
  lemma MarksAreOriginal(base: Level, types: seq<BidiClass>, p: nat)
    requires Completes(MAX_DEPTH, base, types) && p < |types|
    ensures |Classes(MAX_DEPTH, base, types)| == |types|
    ensures Classes(MAX_DEPTH, base, types)[p] == NSM ==> types[p] == NSM
  {
    hide Run, Deciding;
  }

  lemma ChainMarks(base: Level, types: seq<BidiClass>, paragraph: seq<ParaChar>, a: nat, none: nat)
    requires Readable(base, types, paragraph) && a < |ExplicitSequences(base, types)| && none == 0
    requires paragraph == [] || TableHasNoMarks(paragraph, types)
    ensures var c, cls := ChainOf(base, types, paragraph, a), ChainClasses(base, types, paragraph, a, none);
            && |cls| == |c.orig| && BracketsAreNoMarks(c)
            && forall k :: 0 <= k < |cls| && cls[k] == NSM ==> c.orig[k] == NSM
  {
    ExplicitEnvOk(base, types, paragraph);
    var env, seqs, explicit := ExplicitEnv(base, types, paragraph), ExplicitSequences(base, types), Classes(MAX_DEPTH, base, types);
    assert EnvSized(env, seqs, explicit) && InRange(seqs[a], |types|);
    assert env.orig == types && env.paragraph == paragraph;
    if paragraph != [] {
      ChainHasNoMarks(base, types, paragraph, a);
    }
    hide EnvOk, EnvSized, ExplicitEnv, ExplicitSequences, Classes, Levels, Readable;
    forall k: nat | k < |seqs[a].indices|
      ensures explicit[seqs[a].indices[k]] == NSM ==> types[seqs[a].indices[k]] == NSM
    {
      MarksAreOriginal(base, types, seqs[a].indices[k]);
    }
  }

  lemma ResultIsLaterRules(base: Level, types: seq<BidiClass>, paragraph: seq<ParaChar>, a: nat, none: nat, last: nat)
    requires Readable(base, types, paragraph) && a < |ExplicitSequences(base, types)| && none == 0 && last == 10
    ensures var c, cls := ChainOf(base, types, paragraph, a), ChainClasses(base, types, paragraph, a, none);
            ChainClasses(base, types, paragraph, a, last) == LaterRules(c, W1(c, cls), ReachedByN0(base, types, paragraph, a))
  {
    ExplicitEnvOk(base, types, paragraph);
    var env, seqs, explicit := ExplicitEnv(base, types, paragraph), ExplicitSequences(base, types), Classes(MAX_DEPTH, base, types);
    var brackets := BRACKET_STAGE;
    if ReachedByN0(base, types, paragraph, a) {
      ReachedIsApplied(base, types, paragraph, a);
    } else {
      var b: nat :| b <= a && OverflowsIn(base, types, paragraph, b);
      SkippedAfter(base, types, paragraph, a, b, brackets);
    }
    hide EnvOk, After, ExplicitEnv, ExplicitSequences, Classes, CtxOf, ReachedByN0, Apply, W1, WeakRules, N1, N2;
    StagesAreRules(env, seqs, explicit, a);
    LastRules(env, seqs, explicit, a);
  }

  lemma EitherW1InChain(base: Level, types: seq<BidiClass>, paragraph: seq<ParaChar>, a: nat, none: nat, last: nat)
    requires Readable(base, types, paragraph) && a < |ExplicitSequences(base, types)| && none == 0 && last == 10
    requires paragraph == [] || TableHasNoMarks(paragraph, types)
    ensures var c, cls := ChainOf(base, types, paragraph, a), ChainClasses(base, types, paragraph, a, none);
            ChainClasses(base, types, paragraph, a, last) == LaterRules(c, UaxW1(c, cls), ReachedByN0(base, types, paragraph, a))
  {
    var c, cls := ChainOf(base, types, paragraph, a), ChainClasses(base, types, paragraph, a, none);
    assert CtxOk(c, cls);
    ResultIsLaterRules(base, types, paragraph, a, none, last);
    ChainMarks(base, types, paragraph, a, none);
    hide *;
    EitherW1WillDo(c, cls, ReachedByN0(base, types, paragraph, a));
  }

  /** In the result of `resolve` it makes no difference which W1 was applied: the classes a sequence ends
      with are those that the rules make of its classes after X9, with W1 as UAX #9 states it. */
  lemma ResultFromEitherW1(base: Level, types: seq<BidiClass>, paragraph: seq<ParaChar>, a: nat)
    requires Readable(base, types, paragraph) && a < |ExplicitSequences(base, types)|
    requires paragraph == [] || TableHasNoMarks(paragraph, types)
    ensures var c, cls := ChainOf(base, types, paragraph, a), ChainClasses(base, types, paragraph, a, 0);
            ChainClasses(base, types, paragraph, a, 10) == LaterRules(c, UaxW1(c, cls), ReachedByN0(base, types, paragraph, a))
  {
    hide *;
    EitherW1InChain(base, types, paragraph, a, 0, 10);
  }
}
