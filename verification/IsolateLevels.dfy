/** What rules X5a-X6a make of an isolate: the levels between an initiator and its matching PDI (BD9),
    for isolates that are opened and for those that overflow. */
module IsolateLevels {
  import opened Options
  import opened BidiTypes
  import opened Isolates
  import opened LevelStacks
  import opened Explicit
  import opened ExplicitFacts

  // ----- BD9 -----

  lemma {:induction false} DepthAdds(t: seq<BidiClass>, lo: nat, mid: nat, hi: nat)
    requires lo <= mid <= hi <= |t|
    ensures Depth(t, lo, hi) == Depth(t, lo, mid) + Depth(t, mid, hi)
    decreases hi
  {
    if mid < hi {
      DepthAdds(t, lo, mid, hi - 1);
    }
  }

  lemma OpenBefore(types: seq<BidiClass>, i: nat, k: nat)
    requires OpenAt(types, i, k)
    ensures i < k <= |types| && IsIsoInit(types[i])
    ensures k > i + 1 ==> OpenAt(types, i, k - 1) && (types[k - 1] == PDI ==> Depth(types, i + 1, k - 1) != 0)
  {
    hide Depth;
  }

  lemma {:induction false} OpenIsDeep(t: seq<BidiClass>, i: nat, k: nat)
    requires OpenAt(t, i, k)
    ensures Depth(t, i + 1, k) >= 0
    decreases k
  {
    if k > i + 1 {
      OpenBefore(t, i, k);
      OpenIsDeep(t, i, k - 1);
    }
  }

  lemma OpenEarlier(t: seq<BidiClass>, i: nat, k: nat, m: nat)
    requires OpenAt(t, i, k) && i < m <= k
    ensures OpenAt(t, i, m)
  {
  }

  lemma MatchedInsideIsDeeper(t: seq<BidiClass>, i: nat, i': nat, j: nat)
    requires OpenAt(t, i, j) && i < i' && Matches(t, i', j)
    ensures Depth(t, i + 1, j) > 0
  {
    DepthAdds(t, i + 1, i', j);
    DepthAdds(t, i', i' + 1, j);
    OpenEarlier(t, i, j, i');
    OpenIsDeep(t, i, i');
    assert Depth(t, i', i' + 1) == 1;
  }

  lemma MatchIsOneToOne(t: seq<BidiClass>, i: nat, i': nat, j: nat)
    requires Matches(t, i, j) && Matches(t, i', j)
    ensures i == i'
  {
    hide OpenAt;
    if i < i' {
      MatchedInsideIsDeeper(t, i, i', j);
    } else if i' < i {
      MatchedInsideIsDeeper(t, i', i, j);
    }
  }

  /** Without a matching PDI an isolate stays open. */
  lemma {:induction false} NeverClosed(t: seq<BidiClass>, i: nat, k: nat)
    requires i < k <= |t| && IsIsoInit(t[i]) && forall j: nat :: !Matches(t, i, j)
    ensures OpenAt(t, i, k)
    decreases k
  {
    if k > i + 1 {
      NeverClosed(t, i, k - 1);
      assert !Matches(t, i, k - 1);
      OpenAtStep(t, i, k - 1);
    }
  }

  // ----- the directional status stack inside an isolate -----

  /** The status of the machine of UAX #9 before character `k`. */
  ghost function At(base: Level, types: seq<BidiClass>, k: nat): (s: Status)
    requires 0 <= base <= 1 && k <= |types|
    ensures Run(UAX_SLOTS, base, types, k) == Some(s) && StatusOk(base, s) && |s.stack| < UAX_SLOTS
  {
    UaxRunKeepsStatus(base, types, k);
    Run(UAX_SLOTS, base, types, k).value
  }

  lemma AtStep(base: Level, types: seq<BidiClass>, k: nat)
    requires 0 <= base <= 1 && k < |types|
    ensures var s, t := At(base, types, k), At(base, types, k + 1);
            && s.stack != [] && t.stack != [] && 0 <= s.Top().level <= MAX_DEPTH && |s.stack| < UAX_SLOTS
            && s.validIsolate == IsolateCount(s.stack)
            && Step(UAX_SLOTS, s, types[k], FsiIsRtl(types, k)) == Some(t)
  {
    StackLevels(base, At(base, types, k).stack);
    hide Step, IsolateCount;
  }

  /** What a step does to the stack and to the isolate overflow; a PDI apart. */
  ghost predicate StackMoves(s: Status, t: Status, bc: BidiClass) {
    || (t.stack == s.stack && t.overflowIsolate == s.overflowIsolate + Weight(bc))
    || (t.stack != [] && s.stack == PopEntry(t.stack) && (TopEntry(t.stack).isolate <==> IsIsoInit(bc))
        && t.overflowIsolate == s.overflowIsolate == 0)
    || (s.stack != [] && t.stack == PopEntry(s.stack) && !TopEntry(s.stack).isolate && !IsIsoInit(bc)
        && t.overflowIsolate == s.overflowIsolate == 0)
  }

  /** A PDI ends the overflow of one isolate, or else closes one. */
  ghost predicate PdiMoves(s: Status, t: Status) {
    if s.overflowIsolate > 0 then t.stack == s.stack && t.overflowIsolate == s.overflowIsolate - 1
    else t.overflowIsolate == 0 && (s.validIsolate > 0 ==> Some(t.stack) == PopIsolate(s.stack))
  }

  lemma StepMoves(s: Status, t: Status, bc: BidiClass, fsiRtl: bool)
    requires s.stack != [] && s.Top().level <= MAX_DEPTH && |s.stack| < UAX_SLOTS
    requires Step(UAX_SLOTS, s, bc, fsiRtl) == Some(t)
    ensures bc != PDI ==> StackMoves(s, t, bc)
    ensures bc == PDI ==> PdiMoves(s, t)
  {
    StepCases(UAX_SLOTS, s, bc, fsiRtl);
    hide Step, NextLevel, PopIsolate;
    if IsEmbedding(bc) || IsIsoInit(bc) {
      assert t.stack == s.stack || PopEntry(t.stack) == s.stack;
    }
  }

  /** The isolate initiator at `i` opens an isolate, as against overflowing. */
  ghost predicate Opened(base: Level, types: seq<BidiClass>, i: nat)
    requires 0 <= base <= 1 && i < |types|
  {
    IsIsoInit(types[i]) && At(base, types, i + 1).overflowIsolate == 0
  }

  lemma Opens(base: Level, types: seq<BidiClass>, i: nat)
    requires 0 <= base <= 1 && i < |types| && Opened(base, types, i)
    ensures At(base, types, i).stack != [] && At(base, types, i + 1).stack != []
    ensures PopEntry(At(base, types, i + 1).stack) == At(base, types, i).stack
    ensures At(base, types, i + 1).Top().isolate && At(base, types, i + 1).overflowIsolate == 0
    ensures At(base, types, i + 1).Top().level > At(base, types, i).Top().level
  {
    AtStep(base, types, i);
    var s, t := At(base, types, i), At(base, types, i + 1);
    StepCases(UAX_SLOTS, s, types[i], FsiIsRtl(types, i));
    NextLevelIncreases(types[i], s.Top().level, FsiIsRtl(types, i));
    hide At, Step, FsiIsRtl, NextLevel;
  }

  lemma OverflowsThere(base: Level, types: seq<BidiClass>, i: nat)
    requires 0 <= base <= 1 && i < |types| && IsIsoInit(types[i]) && !Opened(base, types, i)
    ensures At(base, types, i + 1).stack == At(base, types, i).stack
    ensures At(base, types, i + 1).overflowIsolate == At(base, types, i).overflowIsolate + 1
  {
    AtStep(base, types, i);
    StepCases(UAX_SLOTS, At(base, types, i), types[i], FsiIsRtl(types, i));
    hide At, Step, FsiIsRtl, NextLevel;
  }

  lemma IsolatesBelow(under: seq<Entry>, suffix: seq<Entry>)
    ensures IsolateCount(under + suffix) == IsolateCount(under) + IsolateCount(suffix)
  {
    if suffix == [] {
      assert under + suffix == under;
    } else {
      IsolatesBelow(under, suffix[..|suffix| - 1]);
      assert (under + suffix)[..|under + suffix| - 1] == under + suffix[..|suffix| - 1];
    }
  }

  /** Closing an isolate that was opened above `under` leaves `under` alone. */
  lemma {:induction false} PopAbove(under: seq<Entry>, suffix: seq<Entry>)
    requires IsolateCount(suffix) > 0
    ensures PopIsolate(suffix).Some? && PopIsolate(under + suffix) == Some(under + PopIsolate(suffix).value)
    ensures IsolateCount(PopIsolate(suffix).value) == IsolateCount(suffix) - 1
  {
    PopIsolateCounts(suffix);
    var all := under + suffix;
    assert PopEntry(all) == under + PopEntry(suffix) && TopEntry(all) == TopEntry(suffix);
    if !TopEntry(suffix).isolate {
      PopAbove(under, PopEntry(suffix));
    }
  }

  /** Without an isolate above it, the isolate on top of `under` is the one that is closed. */
  lemma {:induction false} PopThrough(under: seq<Entry>, suffix: seq<Entry>)
    requires under != [] && TopEntry(under).isolate && IsolateCount(suffix) == 0
    ensures PopIsolate(under + suffix) == Some(PopEntry(under))
  {
    var all := under + suffix;
    if suffix == [] {
      assert all == under;
    } else {
      assert PopEntry(all) == under + PopEntry(suffix) && TopEntry(all) == TopEntry(suffix);
      PopThrough(under, PopEntry(suffix));
    }
  }

  lemma TopCounts(stack: seq<Entry>)
    requires stack != [] && TopEntry(stack).isolate
    ensures IsolateCount(stack) > 0
  {
  }

  /** The isolate opened before `o` and all below it are on the stack at `k`, under `suffix`; the isolates
      BD9 counts are in `suffix` or have overflowed. */
  ghost predicate StaysUnder(base: Level, types: seq<BidiClass>, o: nat, k: nat, suffix: seq<Entry>)
    requires 0 <= base <= 1 && o <= k <= |types|
  {
    && At(base, types, k).stack == At(base, types, o).stack + suffix
    && IsolateCount(suffix) + At(base, types, k).overflowIsolate == Depth(types, o, k)
  }

  lemma MovesInside(under: seq<Entry>, suffix: seq<Entry>, s: Status, t: Status, bc: BidiClass) returns (next: seq<Entry>)
    requires s.stack == under + suffix && StackMoves(s, t, bc) && bc != PDI && under != [] && TopEntry(under).isolate
    ensures t.stack == under + next
    ensures IsolateCount(next) + t.overflowIsolate == IsolateCount(suffix) + s.overflowIsolate + Weight(bc)
  {
    if t.stack == s.stack && t.overflowIsolate == s.overflowIsolate + Weight(bc) {
      next := suffix;
    } else if t.stack != [] && s.stack == PopEntry(t.stack) && (TopEntry(t.stack).isolate <==> IsIsoInit(bc)) {
      next := suffix + [TopEntry(t.stack)];
      assert next[..|next| - 1] == suffix;
      assert t.stack == s.stack + [TopEntry(t.stack)];
    } else {
      assert suffix == [] ==> s.stack == under;
      assert TopEntry(suffix) == TopEntry(s.stack);
      next := PopEntry(suffix);
    }
  }

  lemma {:induction false} Inside(base: Level, types: seq<BidiClass>, i: nat, k: nat) returns (suffix: seq<Entry>)
    requires 0 <= base <= 1 && OpenAt(types, i, k) && Opened(base, types, i)
    ensures i < k <= |types| && StaysUnder(base, types, i + 1, k, suffix)
    decreases k
  {
    hide *;
    OpenBefore(types, i, k);
    if k == i + 1 {
      suffix := NothingAbove(base, types, i);
    } else {
      var prior := Inside(base, types, i, k - 1);
      suffix := InsideStep(base, types, i, k - 1, prior);
    }
  }

  lemma NothingAbove(base: Level, types: seq<BidiClass>, i: nat) returns (suffix: seq<Entry>)
    requires 0 <= base <= 1 && i < |types| && Opened(base, types, i)
    ensures StaysUnder(base, types, i + 1, i + 1, suffix)
  {
    hide At;
    suffix := [];
  }

  lemma InsideStep(base: Level, types: seq<BidiClass>, i: nat, k: nat, prior: seq<Entry>) returns (suffix: seq<Entry>)
    requires 0 <= base <= 1 && OpenAt(types, i, k) && k < |types| && Opened(base, types, i)
    requires types[k] == PDI ==> Depth(types, i + 1, k) != 0
    requires StaysUnder(base, types, i + 1, k, prior)
    ensures StaysUnder(base, types, i + 1, k + 1, suffix)
  {
    var s, t, under := At(base, types, k), At(base, types, k + 1), At(base, types, i + 1).stack;
    Opens(base, types, i);
    AtStep(base, types, k);
    assert Depth(types, i + 1, k + 1) == Depth(types, i + 1, k) + Weight(types[k]);
    hide At, Opened, Step, OpenAt, StatusOk, StackOk, Depth, StackMoves, PopIsolate, IsolateCount;
    StepMoves(s, t, types[k], FsiIsRtl(types, k));
    if types[k] != PDI {
      suffix := MovesInside(under, prior, s, t, types[k]);
    } else if s.overflowIsolate > 0 {
      suffix := prior;
    } else {
      IsolatesBelow(under, prior);
      PopAbove(under, prior);
      suffix := PopIsolate(prior).value;
    }
  }

  /** While an isolate that has overflowed is open, the stack stands still. */
  ghost predicate StaysPut(base: Level, types: seq<BidiClass>, i: nat, k: nat)
    requires 0 <= base <= 1 && i < k <= |types|
  {
    && At(base, types, k).stack == At(base, types, i).stack
    && At(base, types, k).overflowIsolate == At(base, types, i).overflowIsolate + 1 + Depth(types, i + 1, k)
  }

  lemma {:induction false} InsideOverflow(base: Level, types: seq<BidiClass>, i: nat, k: nat)
    requires 0 <= base <= 1 && OpenAt(types, i, k) && IsIsoInit(types[i]) && !Opened(base, types, i)
    ensures i < k <= |types| && StaysPut(base, types, i, k)
    decreases k
  {
    hide *;
    OpenBefore(types, i, k);
    if k == i + 1 {
      PutAtFirst(base, types, i);
    } else {
      InsideOverflow(base, types, i, k - 1);
      OpenIsDeep(types, i, k - 1);
      OverflowStep(base, types, i, k - 1);
    }
  }

  lemma PutAtFirst(base: Level, types: seq<BidiClass>, i: nat)
    requires 0 <= base <= 1 && i < |types| && IsIsoInit(types[i]) && !Opened(base, types, i)
    ensures StaysPut(base, types, i, i + 1)
  {
    OverflowsThere(base, types, i);
    hide At, Opened;
  }

  lemma OverflowStep(base: Level, types: seq<BidiClass>, i: nat, k: nat)
    requires 0 <= base <= 1 && i < k < |types| && StaysPut(base, types, i, k) && Depth(types, i + 1, k) >= 0
    ensures StaysPut(base, types, i, k + 1)
  {
    AtStep(base, types, k);
    assert Depth(types, i + 1, k + 1) == Depth(types, i + 1, k) + Weight(types[k]);
    hide At, Step, StatusOk, StackOk, Depth, PopIsolate, IsolateCount;
    StepMoves(At(base, types, k), At(base, types, k + 1), types[k], FsiIsRtl(types, k));
  }

  /** At its matching PDI the stack is back to what it was at the initiator. */
  lemma MatchCloses(base: Level, types: seq<BidiClass>, i: nat, j: nat)
    requires 0 <= base <= 1 && Matches(types, i, j)
    ensures At(base, types, j + 1).stack == At(base, types, i).stack
    ensures At(base, types, j + 1).overflowIsolate == At(base, types, i).overflowIsolate
  {
    assert OpenAt(types, i, j) && IsIsoInit(types[i]);
    hide *;
    if Opened(base, types, i) {
      OpenedCloses(base, types, i, j);
    } else {
      OverflowCloses(base, types, i, j);
    }
  }

  lemma OpenedCloses(base: Level, types: seq<BidiClass>, i: nat, j: nat)
    requires 0 <= base <= 1 && Matches(types, i, j) && Opened(base, types, i)
    ensures At(base, types, j + 1).stack == At(base, types, i).stack
    ensures At(base, types, j + 1).overflowIsolate == At(base, types, i).overflowIsolate
  {
    Opens(base, types, i);
    OpenedFromNone(base, types, i);
    var suffix := Inside(base, types, i, j);
    AtStep(base, types, j);
    var s, t, under := At(base, types, j), At(base, types, j + 1), At(base, types, i + 1).stack;
    assert types[j] == PDI && IsolateCount(suffix) == 0 && s.overflowIsolate == 0 && s.stack == under + suffix;
    hide At, Opened, Step, OpenAt, Matches, StatusOk, StackOk, Depth, PopIsolate;
    IsolatesBelow(under, suffix);
    TopCounts(under);
    StepMoves(s, t, PDI, FsiIsRtl(types, j));
    PopThrough(under, suffix);
  }

  lemma OpenedFromNone(base: Level, types: seq<BidiClass>, i: nat)
    requires 0 <= base <= 1 && i < |types| && Opened(base, types, i)
    ensures At(base, types, i).overflowIsolate == 0
  {
    AtStep(base, types, i);
    StepMoves(At(base, types, i), At(base, types, i + 1), types[i], FsiIsRtl(types, i));
    hide At, Step;
  }

  lemma OverflowCloses(base: Level, types: seq<BidiClass>, i: nat, j: nat)
    requires 0 <= base <= 1 && Matches(types, i, j) && !Opened(base, types, i)
    ensures At(base, types, j + 1).stack == At(base, types, i).stack
    ensures At(base, types, j + 1).overflowIsolate == At(base, types, i).overflowIsolate
  {
    assert OpenAt(types, i, j) && IsIsoInit(types[i]) && types[j] == PDI && Depth(types, i + 1, j) == 0;
    hide *;
    InsideOverflow(base, types, i, j);
    PutStep(base, types, i, j);
  }

  lemma PutStep(base: Level, types: seq<BidiClass>, i: nat, j: nat)
    requires 0 <= base <= 1 && i < j < |types| && StaysPut(base, types, i, j) && Depth(types, i + 1, j) == 0 && types[j] == PDI
    ensures At(base, types, j + 1).stack == At(base, types, i).stack
    ensures At(base, types, j + 1).overflowIsolate == At(base, types, i).overflowIsolate
  {
    AtStep(base, types, j);
    hide At, Step;
    StepMoves(At(base, types, j), At(base, types, j + 1), PDI, FsiIsRtl(types, j));
  }

  // ----- levels and classes inside an isolate -----

  ghost function LevelOf(base: Level, types: seq<BidiClass>, k: nat): Level
    requires 0 <= base <= 1 && k < |types|
  {
    var before, after := At(base, types, k), At(base, types, k + 1);
    LevelAt(UAX_SLOTS, base, types, k)
  }

  ghost function ClassOf(base: Level, types: seq<BidiClass>, k: nat): BidiClass
    requires 0 <= base <= 1 && k < |types|
  {
    var before, after := At(base, types, k), At(base, types, k + 1);
    ClassAt(UAX_SLOTS, base, types, k)
  }

  /** The entry that decides the level and the class of a character. */
  lemma Decides(base: Level, types: seq<BidiClass>, k: nat)
    requires 0 <= base <= 1 && k < |types|
    ensures var top := At(base, types, if types[k] == PDI then k + 1 else k).Top();
            && LevelOf(base, types, k) == (if IsRemovedClass(types[k]) then NO_LEVEL else if types[k] == B then base else top.level)
            && ClassOf(base, types, k) == (if IsRemovedClass(types[k]) || types[k] == B then types[k] else ApplyOverride(top.ovr, types[k]))
  {
    var before, after := At(base, types, k), At(base, types, k + 1);
    hide Run;
  }

  /** Everything on the stack while the isolate opened at `i` is open is above the level of `i`. */
  lemma TopInside(base: Level, types: seq<BidiClass>, i: nat, k: nat)
    requires 0 <= base <= 1 && OpenAt(types, i, k) && Opened(base, types, i)
    ensures At(base, types, k).stack != [] && At(base, types, i).stack != []
    ensures At(base, types, k).Top().level > At(base, types, i).Top().level
  {
    Opens(base, types, i);
    var suffix := Inside(base, types, i, k);
    var under, stack := At(base, types, i + 1).stack, At(base, types, k).stack;
    assert StackOk(base, stack) && stack == under + suffix;
    hide At, Opened, OpenAt, Depth, IsolateCount, StaysUnder;
    if suffix != [] {
      assert stack[|under| - 1] == TopEntry(under);
    } else {
      assert stack == under;
    }
  }

  /** Inside an isolate that is opened all levels are above that of its initiator, paragraph separators
      apart. Inside one that overflows they are the level of its initiator. */
  lemma LevelInside(base: Level, types: seq<BidiClass>, i: nat, p: nat)
    requires 0 <= base <= 1 && OpenAt(types, i, p) && p < |types|
    requires types[p] == PDI ==> OpenAt(types, i, p + 1)
    requires !IsRemovedClass(types[p]) && types[p] != B
    ensures if Opened(base, types, i) then LevelOf(base, types, p) > LevelOf(base, types, i)
            else LevelOf(base, types, p) == LevelOf(base, types, i)
  {
    Decides(base, types, p);
    Decides(base, types, i);
    assert IsIsoInit(types[i]) by { OpenBefore(types, i, p); }
    hide At, OpenAt, LevelOf, ClassOf, Opened;
    var k := if types[p] == PDI then p + 1 else p;
    if Opened(base, types, i) {
      TopInside(base, types, i, k);
    } else {
      InsideOverflow(base, types, i, k);
    }
  }

  /** The matching PDI has the level of the initiator, and an override spares both or none of them. */
  lemma MatchedLikeInitiator(base: Level, types: seq<BidiClass>, i: nat, j: nat)
    requires 0 <= base <= 1 && Matches(types, i, j)
    ensures LevelOf(base, types, j) == LevelOf(base, types, i)
    ensures IsIsoInit(ClassOf(base, types, i)) <==> ClassOf(base, types, j) == PDI
  {
    MatchCloses(base, types, i, j);
    Decides(base, types, i);
    Decides(base, types, j);
    hide At, LevelOf, ClassOf;
  }

  /** An initiator or PDI that is left in the text was one in the first place. */
  lemma ControlIsOriginal(base: Level, types: seq<BidiClass>, k: nat)
    requires 0 <= base <= 1 && k < |types|
    ensures IsIsoControl(ClassOf(base, types, k)) ==> types[k] == ClassOf(base, types, k)
    ensures LevelOf(base, types, k) == NO_LEVEL <==> IsRemovedClass(types[k])
  {
    Decides(base, types, k);
    StackLevels(base, At(base, types, k).stack);
    StackLevels(base, At(base, types, k + 1).stack);
    hide At, LevelOf, ClassOf;
  }

  /** The same of the levels the source computes, while no push is dropped. */
  lemma SourceLevelsInside(base: Level, types: seq<BidiClass>, i: nat, p: nat)
    requires 0 <= base <= 1 && NoDroppedPush(base, types) && p < |types|
    requires Matches(types, i, p) || (OpenAt(types, i, p) && (types[p] == PDI ==> OpenAt(types, i, p + 1)))
    requires !IsRemovedClass(types[p]) && types[p] != B
    ensures Completes(MAX_DEPTH, base, types) && i < p
    ensures var levels := Levels(MAX_DEPTH, base, types);
            if Opened(base, types, i) && !Matches(types, i, p) then levels[p] > levels[i] else levels[p] == levels[i]
  {
    ConformsWithoutDroppedPush(base, types);
    assert i < p by { assert OpenAt(types, i, p); }
    LevelsAre(base, types, i);
    LevelsAre(base, types, p);
    hide *;
    if Matches(types, i, p) {
      MatchedLikeInitiator(base, types, i, p);
    } else {
      LevelInside(base, types, i, p);
    }
  }

  lemma LevelsAre(base: Level, types: seq<BidiClass>, k: nat)
    requires Completes(UAX_SLOTS, base, types) && k < |types|
    ensures 0 <= base <= 1 && |Levels(UAX_SLOTS, base, types)| == |Classes(UAX_SLOTS, base, types)| == |types|
    ensures Levels(UAX_SLOTS, base, types)[k] == LevelOf(base, types, k)
    ensures Classes(UAX_SLOTS, base, types)[k] == ClassOf(base, types, k)
  {
    hide LevelAt, ClassAt;
  }
}
