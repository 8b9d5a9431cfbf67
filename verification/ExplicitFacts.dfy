/** What every run of the X1-X8 machine keeps, and what the missing stack slots of the source cost. */
module ExplicitFacts {
  import opened Options
  import opened BidiTypes
  import opened LevelStacks
  import opened Explicit

  /** The status never leaves this invariant while no push is dropped. */
  ghost predicate StatusOk(base: Level, s: Status) {
    && StackOk(base, s.stack)
    && s.validIsolate == IsolateCount(s.stack)
  }

  lemma {:induction false} StackHeight(base: Level, stack: seq<Entry>, i: nat)
    requires StackOk(base, stack) && i < |stack|
    ensures base + i <= stack[i].level <= MAX_DEPTH - (|stack| - 1 - i)
    decreases i
  {
    if i > 0 {
      StackHeight(base, stack, i - 1);
    }
    LevelsBelowTop(base, stack, i);
  }

  lemma {:induction false} LevelsBelowTop(base: Level, stack: seq<Entry>, i: nat)
    requires StackOk(base, stack) && i < |stack|
    ensures stack[i].level <= MAX_DEPTH - (|stack| - 1 - i)
    decreases |stack| - i
  {
    if i < |stack| - 1 {
      LevelsBelowTop(base, stack, i + 1);
    }
  }

  lemma {:induction false} PopIsolateCounts(stack: seq<Entry>)
    ensures PopIsolate(stack).Some? <==> IsolateCount(stack) > 0
    ensures PopIsolate(stack).Some? ==> IsolateCount(PopIsolate(stack).value) == IsolateCount(stack) - 1
  {
    if stack != [] && !TopEntry(stack).isolate {
      PopIsolateCounts(PopEntry(stack));
    }
  }

  lemma IsolateCountPush(cap: nat, stack: seq<Entry>, e: Entry)
    requires |stack| < cap
    ensures IsolateCount(PushEntry(cap, stack, e)) == IsolateCount(stack) + (if e.isolate then 1 else 0)
  {
    assert (stack + [e])[..|stack|] == stack;
  }

  lemma OpenEmbeddingCounts(cap: nat, s: Status, bc: BidiClass)
    requires s.stack != [] && s.Top().level <= MAX_DEPTH && |s.stack| < cap
    requires s.validIsolate == IsolateCount(s.stack)
    ensures OpenEmbedding(cap, s, bc).validIsolate == IsolateCount(OpenEmbedding(cap, s, bc).stack)
  {
    hide NextLevel, PushEntry, IsolateCount;
    var next := NextLevel(bc, s.Top().level, false);
    if next.Some? {
      IsolateCountPush(cap, s.stack, Entry(next.value, InitiatorOverride(bc), false));
    }
  }

  lemma OpenIsolateCounts(cap: nat, s: Status, bc: BidiClass, fsiRtl: bool)
    requires s.stack != [] && s.Top().level <= MAX_DEPTH && |s.stack| < cap
    requires s.validIsolate == IsolateCount(s.stack)
    ensures OpenIsolate(cap, s, bc, fsiRtl).validIsolate == IsolateCount(OpenIsolate(cap, s, bc, fsiRtl).stack)
  {
    hide NextLevel, PushEntry, IsolateCount;
    var next := NextLevel(bc, s.Top().level, fsiRtl);
    if next.Some? {
      IsolateCountPush(cap, s.stack, Entry(next.value, NoOverride, true));
    }
  }

  lemma CloseIsolateCounts(s: Status)
    requires s.validIsolate == IsolateCount(s.stack)
    ensures CloseIsolate(s).Some?
    ensures CloseIsolate(s).value.validIsolate == IsolateCount(CloseIsolate(s).value.stack)
  {
    hide PopIsolate, IsolateCount;
    PopIsolateCounts(s.stack);
  }

  lemma CloseEmbeddingCounts(s: Status)
    requires s.stack != []
    requires s.validIsolate == IsolateCount(s.stack)
    ensures CloseEmbedding(s).validIsolate == IsolateCount(CloseEmbedding(s).stack)
  {
  }

  /** One step of a machine whose stack still has a free slot: the pop loop of X6a stops on an isolate
      entry, and `valid_isolate` counts the isolate entries. */
  lemma StepKeepsStatus(cap: nat, base: Level, s: Status, bc: BidiClass, fsiRtl: bool)
    requires StatusOk(base, s) && |s.stack| < cap
    ensures Step(cap, s, bc, fsiRtl).Some?
    ensures StatusOk(base, Step(cap, s, bc, fsiRtl).value)
  {
    StackLevels(base, s.stack);
    StepKeepsStackOk(cap, base, s, bc, fsiRtl);
    StepCases(cap, s, bc, fsiRtl);
    hide StackOk, Step, OpenEmbedding, OpenIsolate, CloseIsolate, CloseEmbedding, IsolateCount;
    OpenEmbeddingCounts(cap, s, bc);
    OpenIsolateCounts(cap, s, bc, fsiRtl);
    CloseIsolateCounts(s);
    CloseEmbeddingCounts(s);
  }

  /** With the slots UAX #9 asks for, every run completes and keeps the invariant. */
  lemma {:induction false} UaxRunKeepsStatus(base: Level, types: seq<BidiClass>, k: nat)
    requires 0 <= base <= 1 && k <= |types|
    ensures Run(UAX_SLOTS, base, types, k).Some?
    ensures StatusOk(base, Run(UAX_SLOTS, base, types, k).value)
    ensures |Run(UAX_SLOTS, base, types, k).value.stack| <= MAX_DEPTH + 1 - base
  {
    if k == 0 {
      assert Initial(base).stack[..0] == [];
    } else {
      UaxRunKeepsStatus(base, types, k - 1);
      StepKeepsStatus(UAX_SLOTS, base, Run(UAX_SLOTS, base, types, k - 1).value, types[k - 1], FsiIsRtl(types, k - 1));
    }
    StackHeight(base, Run(UAX_SLOTS, base, types, k).value.stack, 0);
  }

  lemma StepGrowth(cap: nat, base: Level, s: Status, bc: BidiClass, fsiRtl: bool)
    requires StackOk(base, s.stack) && Step(cap, s, bc, fsiRtl).Some?
    ensures |Step(cap, s, bc, fsiRtl).value.stack| <= |s.stack| + 1
    ensures |s.stack| <= cap ==> |Step(cap, s, bc, fsiRtl).value.stack| <= cap
    ensures !IsEmbedding(bc) && !IsIsoInit(bc) ==> |Step(cap, s, bc, fsiRtl).value.stack| <= |s.stack|
  {
    StackLevels(base, s.stack);
    StepCases(cap, s, bc, fsiRtl);
    if PopIsolate(s.stack).Some? {
      PopIsolateIsPrefix(s.stack);
    }
    hide StackOk, NextLevel, PopIsolate, Step;
  }

  lemma {:induction false} RunFits(cap: nat, base: Level, types: seq<BidiClass>, k: nat)
    requires 0 <= base <= 1 && k <= |types| && 1 <= cap
    ensures Run(cap, base, types, k).Some? ==> |Run(cap, base, types, k).value.stack| <= cap
  {
    if k > 0 {
      RunFits(cap, base, types, k - 1);
      hide StackOk, Step;
      if Run(cap, base, types, k).Some? {
        StepGrowth(cap, base, Run(cap, base, types, k - 1).value, types[k - 1], FsiIsRtl(types, k - 1));
      }
    }
  }

  /** The text never makes the stack of UAX #9 hold more entries than the source has slots. */
  ghost predicate NoDroppedPush(base: Level, types: seq<BidiClass>)
    requires 0 <= base <= 1
  {
    forall k :: 0 <= k <= |types| ==>
      Run(UAX_SLOTS, base, types, k).Some? && |Run(UAX_SLOTS, base, types, k).value.stack| <= MAX_DEPTH
  }

  lemma StepIgnoresSpareSlots(base: Level, s: Status, bc: BidiClass, fsiRtl: bool)
    requires StackOk(base, s.stack)
    requires Step(UAX_SLOTS, s, bc, fsiRtl).Some? && |Step(UAX_SLOTS, s, bc, fsiRtl).value.stack| <= MAX_DEPTH
    requires |s.stack| <= MAX_DEPTH
    ensures Step(MAX_DEPTH, s, bc, fsiRtl) == Step(UAX_SLOTS, s, bc, fsiRtl)
  {
    StackLevels(base, s.stack);
    hide StackOk, NextLevel, PopIsolate;
  }

  /** The two machines are in the same state after every character. */
  ghost predicate Tracks(base: Level, types: seq<BidiClass>)
    requires 0 <= base <= 1
  {
    forall k :: 0 <= k <= |types| ==> Run(MAX_DEPTH, base, types, k) == Run(UAX_SLOTS, base, types, k)
  }

  lemma FitsAt(base: Level, types: seq<BidiClass>, k: nat)
    requires 0 <= base <= 1 && k <= |types|
    requires NoDroppedPush(base, types)
    ensures Run(UAX_SLOTS, base, types, k).Some?
    ensures |Run(UAX_SLOTS, base, types, k).value.stack| <= MAX_DEPTH
  {
  }

  lemma {:induction false} TracksUpTo(base: Level, types: seq<BidiClass>, k: nat)
    requires 0 <= base <= 1 && k <= |types|
    requires NoDroppedPush(base, types)
    ensures Run(MAX_DEPTH, base, types, k) == Run(UAX_SLOTS, base, types, k)
  {
    hide *;
    if k == 0 {
      RunStart(MAX_DEPTH, base, types);
      RunStart(UAX_SLOTS, base, types);
    } else {
      TracksUpTo(base, types, k - 1);
      TracksNext(base, types, k - 1);
    }
  }

  lemma RunStart(cap: nat, base: Level, types: seq<BidiClass>)
    requires 0 <= base <= 1
    ensures Run(cap, base, types, 0) == Some(Initial(base))
  {
  }

  lemma TracksNext(base: Level, types: seq<BidiClass>, k: nat)
    requires 0 <= base <= 1 && k < |types|
    requires NoDroppedPush(base, types)
    requires Run(MAX_DEPTH, base, types, k) == Run(UAX_SLOTS, base, types, k)
    ensures Run(MAX_DEPTH, base, types, k + 1) == Run(UAX_SLOTS, base, types, k + 1)
  {
    FitsAt(base, types, k);
    FitsAt(base, types, k + 1);
    var s := Run(UAX_SLOTS, base, types, k).value;
    RunStep(MAX_DEPTH, base, types, k);
    RunStep(UAX_SLOTS, base, types, k);
    hide *;
    StepIgnoresSpareSlots(base, s, types[k], FsiIsRtl(types, k));
  }

  /** The run one character further. */
  lemma RunStep(cap: nat, base: Level, types: seq<BidiClass>, k: nat)
    requires 0 <= base <= 1 && k < |types| && Run(cap, base, types, k).Some?
    ensures StackOk(base, Run(cap, base, types, k).value.stack)
    ensures Run(cap, base, types, k).value.stack != [] && Run(cap, base, types, k).value.Top().level <= MAX_DEPTH
    ensures Run(cap, base, types, k + 1) == Step(cap, Run(cap, base, types, k).value, types[k], FsiIsRtl(types, k))
  {
    hide Step;
  }

  lemma NoDropTracks(base: Level, types: seq<BidiClass>)
    requires 0 <= base <= 1 && NoDroppedPush(base, types)
    ensures Tracks(base, types)
  {
    hide Run, StackOk, NoDroppedPush;
    forall k | 0 <= k <= |types|
      ensures Run(MAX_DEPTH, base, types, k) == Run(UAX_SLOTS, base, types, k)
    {
      TracksUpTo(base, types, k);
    }
  }

  lemma TrackingFits(base: Level, types: seq<BidiClass>)
    requires 0 <= base <= 1
    requires Tracks(base, types)
    ensures NoDroppedPush(base, types)
  {
    hide Run, StackOk;
    forall k | 0 <= k <= |types|
      ensures Run(UAX_SLOTS, base, types, k).Some? && |Run(UAX_SLOTS, base, types, k).value.stack| <= MAX_DEPTH
    {
      UaxRunKeepsStatus(base, types, k);
      RunFits(MAX_DEPTH, base, types, k);
      assert Run(MAX_DEPTH, base, types, k) == Run(UAX_SLOTS, base, types, k);
    }
  }

  /** The source's machine is in the state UAX #9 asks for after every character exactly when no push
      finds its 125 slots full. */
  lemma TracksUaxIffNoDroppedPush(base: Level, types: seq<BidiClass>)
    requires 0 <= base <= 1
    ensures Tracks(base, types) <==> NoDroppedPush(base, types)
  {
    hide Tracks, NoDroppedPush;
    if NoDroppedPush(base, types) {
      NoDropTracks(base, types);
    }
    if Tracks(base, types) {
      TrackingFits(base, types);
    }
  }

  /** Levels and classes after X9 are those of UAX #9 when no push is dropped. */
  lemma ConformsWithoutDroppedPush(base: Level, types: seq<BidiClass>)
    requires 0 <= base <= 1 && NoDroppedPush(base, types)
    ensures Completes(MAX_DEPTH, base, types) && Completes(UAX_SLOTS, base, types)
    ensures Levels(MAX_DEPTH, base, types) == Levels(UAX_SLOTS, base, types)
    ensures Classes(MAX_DEPTH, base, types) == Classes(UAX_SLOTS, base, types)
  {
    forall k | 0 <= k <= |types|
      ensures Run(MAX_DEPTH, base, types, k) == Run(UAX_SLOTS, base, types, k)
    {
      TracksUpTo(base, types, k);
    }
    forall k | 0 <= k < |types|
      ensures LevelAt(MAX_DEPTH, base, types, k) == LevelAt(UAX_SLOTS, base, types, k)
      ensures ClassAt(MAX_DEPTH, base, types, k) == ClassAt(UAX_SLOTS, base, types, k)
    {
      TracksUpTo(base, types, k);
      TracksUpTo(base, types, k + 1);
    }
  }

  lemma RightToLeftBaseDropsNothing(types: seq<BidiClass>)
    ensures NoDroppedPush(1, types)
  {
    forall k | 0 <= k <= |types|
      ensures Run(UAX_SLOTS, 1, types, k).Some? && |Run(UAX_SLOTS, 1, types, k).value.stack| <= MAX_DEPTH
    {
      UaxRunKeepsStatus(1, types, k);
    }
  }

  /** Over base level 0 a push finds the slots full only when it pushes level 125 onto 0..124. */
  lemma OnlyLevel125CanBeDropped(types: seq<BidiClass>, k: nat)
    requires k <= |types|
    ensures Run(UAX_SLOTS, 0, types, k).Some?
    ensures var stack := Run(UAX_SLOTS, 0, types, k).value.stack;
            |stack| > MAX_DEPTH ==> |stack| == MAX_DEPTH + 1 && forall i :: 0 <= i <= MAX_DEPTH ==> stack[i].level == i
  {
    UaxRunKeepsStatus(0, types, k);
    var stack := Run(UAX_SLOTS, 0, types, k).value.stack;
    if |stack| > MAX_DEPTH {
      forall i | 0 <= i <= MAX_DEPTH ensures stack[i].level == i {
        StackHeight(0, stack, i);
      }
    }
  }

  /** How many characters of `types[..k]` can push. */
  function Initiators(types: seq<BidiClass>, k: nat): nat
    requires k <= |types|
  {
    if k == 0 then 0
    else Initiators(types, k - 1) + (if IsEmbedding(types[k - 1]) || IsIsoInit(types[k - 1]) then 1 else 0)
  }

  lemma {:induction false} InitiatorsBoundHeight(base: Level, types: seq<BidiClass>, k: nat)
    requires 0 <= base <= 1 && k <= |types|
    ensures Run(UAX_SLOTS, base, types, k).Some?
    ensures |Run(UAX_SLOTS, base, types, k).value.stack| <= 1 + Initiators(types, k)
  {
    UaxRunKeepsStatus(base, types, k);
    hide StackOk, Step, StatusOk, IsEmbedding, IsIsoInit;
    if k > 0 {
      InitiatorsBoundHeight(base, types, k - 1);
      UaxRunKeepsStatus(base, types, k - 1);
      StepGrowth(UAX_SLOTS, base, Run(UAX_SLOTS, base, types, k - 1).value, types[k - 1], FsiIsRtl(types, k - 1));
    }
  }

  lemma {:induction false} InitiatorsGrow(types: seq<BidiClass>, j: nat, k: nat)
    requires j <= k <= |types|
    ensures Initiators(types, j) <= Initiators(types, k)
  {
    if j < k {
      InitiatorsGrow(types, j, k - 1);
    }
  }

  /** A text with fewer than 125 embedding and isolate initiators drops nothing. */
  lemma FewInitiatorsDropNothing(base: Level, types: seq<BidiClass>)
    requires 0 <= base <= 1 && Initiators(types, |types|) < MAX_DEPTH
    ensures NoDroppedPush(base, types)
  {
    forall k | 0 <= k <= |types|
      ensures Run(UAX_SLOTS, base, types, k).Some? && |Run(UAX_SLOTS, base, types, k).value.stack| <= MAX_DEPTH
    {
      InitiatorsBoundHeight(base, types, k);
      InitiatorsGrow(types, k, |types|);
    }
  }

  // ----- when the pop loop of X6a stops -----

  /** The isolate that the initiator opens is counted, but the full stack drops its entry. */
  predicate DropsIsolate(cap: nat, s: Status, bc: BidiClass, fsiRtl: bool)
    requires s.stack != [] && s.Top().level <= MAX_DEPTH
  {
    IsIsoInit(bc) && s.NoOverflow() && |s.stack| >= cap && NextLevel(bc, s.Top().level, fsiRtl).Some?
  }

  /** How many isolates among `types[..k]` have been counted without an entry. */
  function Dropped(cap: nat, base: Level, types: seq<BidiClass>, k: nat): nat
    requires 0 <= base <= 1 && k <= |types|
  {
    if k == 0 then 0
    else match Run(cap, base, types, k - 1)
      case None => Dropped(cap, base, types, k - 1)
      case Some(s) =>
        Dropped(cap, base, types, k - 1) + (if DropsIsolate(cap, s, types[k - 1], FsiIsRtl(types, k - 1)) then 1 else 0)
  }

  /** A PDI that is to close one of the isolates counted, when all of those have lost their entries. */
  predicate NothingToPop(cap: nat, base: Level, types: seq<BidiClass>, k: nat)
    requires 0 <= base <= 1 && k < |types|
  {
    match Run(cap, base, types, k)
    case None => false
    case Some(s) => types[k] == PDI && s.overflowIsolate == 0 && 0 < s.validIsolate == Dropped(cap, base, types, k)
  }

  lemma PushCounts(cap: nat, stack: seq<Entry>, e: Entry)
    ensures IsolateCount(PushEntry(cap, stack, e)) == IsolateCount(stack) + (if e.isolate && |stack| < cap then 1 else 0)
  {
    if |stack| < cap {
      IsolateCountPush(cap, stack, e);
    }
  }

  /** One step: the isolates counted beyond those on the stack grow by the one that is dropped, if any. */
  lemma StepDrops(cap: nat, s: Status, bc: BidiClass, fsiRtl: bool, gone: nat)
    requires s.stack != [] && s.Top().level <= MAX_DEPTH && s.validIsolate == IsolateCount(s.stack) + gone
    ensures Step(cap, s, bc, fsiRtl).None? <==> bc == PDI && s.overflowIsolate == 0 && 0 < s.validIsolate == gone
    ensures Step(cap, s, bc, fsiRtl).Some? ==>
              var t := Step(cap, s, bc, fsiRtl).value;
              t.validIsolate == IsolateCount(t.stack) + gone + (if DropsIsolate(cap, s, bc, fsiRtl) then 1 else 0)
  {
    StepCases(cap, s, bc, fsiRtl);
    EmbeddingDrops(cap, s, bc, gone);
    IsolateDrops(cap, s, bc, fsiRtl, gone);
    CloseDrops(s, gone);
    CloseEmbeddingDrops(s, gone);
    assert DropsIsolate(cap, s, bc, fsiRtl) ==> IsIsoInit(bc);
    hide Step, OpenEmbedding, OpenIsolate, CloseIsolate, CloseEmbedding, DropsIsolate, IsolateCount;
  }

  lemma EmbeddingDrops(cap: nat, s: Status, bc: BidiClass, gone: nat)
    requires s.stack != [] && s.Top().level <= MAX_DEPTH && s.validIsolate == IsolateCount(s.stack) + gone
    ensures var t := OpenEmbedding(cap, s, bc); t.validIsolate == IsolateCount(t.stack) + gone
  {
    hide NextLevel, PushEntry, IsolateCount;
    var next := NextLevel(bc, s.Top().level, false);
    if next.Some? {
      PushCounts(cap, s.stack, Entry(next.value, InitiatorOverride(bc), false));
    }
  }

  lemma IsolateDrops(cap: nat, s: Status, bc: BidiClass, fsiRtl: bool, gone: nat)
    requires s.stack != [] && s.Top().level <= MAX_DEPTH && s.validIsolate == IsolateCount(s.stack) + gone
    ensures var t := OpenIsolate(cap, s, bc, fsiRtl);
            IsIsoInit(bc) ==>
              t.validIsolate == IsolateCount(t.stack) + gone + (if DropsIsolate(cap, s, bc, fsiRtl) then 1 else 0)
  {
    hide NextLevel, PushEntry, IsolateCount;
    var next := NextLevel(bc, s.Top().level, fsiRtl);
    if next.Some? {
      PushCounts(cap, s.stack, Entry(next.value, NoOverride, true));
    }
  }

  lemma CloseDrops(s: Status, gone: nat)
    requires s.validIsolate == IsolateCount(s.stack) + gone
    ensures CloseIsolate(s).None? <==> s.overflowIsolate == 0 && 0 < s.validIsolate == gone
    ensures CloseIsolate(s).Some? ==> var t := CloseIsolate(s).value; t.validIsolate == IsolateCount(t.stack) + gone
  {
    hide PopIsolate, IsolateCount;
    PopIsolateCounts(s.stack);
  }

  lemma CloseEmbeddingDrops(s: Status, gone: nat)
    requires s.stack != [] && s.validIsolate == IsolateCount(s.stack) + gone
    ensures var t := CloseEmbedding(s); t.validIsolate == IsolateCount(t.stack) + gone
  {
  }

  /** `valid_isolate` exceeds the isolate entries on the stack by the isolates that were dropped. */
  lemma {:induction false} ValidCountsDropped(cap: nat, base: Level, types: seq<BidiClass>, k: nat)
    requires 0 <= base <= 1 && k <= |types| && Run(cap, base, types, k).Some?
    ensures Run(cap, base, types, k).value.validIsolate
            == IsolateCount(Run(cap, base, types, k).value.stack) + Dropped(cap, base, types, k)
  {
    hide *;
    if k == 0 {
      NoneDroppedYet(cap, base, types);
    } else {
      RunDrops(cap, base, types, k - 1);
      ValidCountsDropped(cap, base, types, k - 1);
      StepDrops(cap, Run(cap, base, types, k - 1).value, types[k - 1], FsiIsRtl(types, k - 1), Dropped(cap, base, types, k - 1));
    }
  }

  lemma NoneDroppedYet(cap: nat, base: Level, types: seq<BidiClass>)
    requires 0 <= base <= 1
    ensures Run(cap, base, types, 0).Some? && Run(cap, base, types, 0).value.validIsolate == 0
    ensures IsolateCount(Run(cap, base, types, 0).value.stack) == 0 && Dropped(cap, base, types, 0) == 0
  {
    assert Initial(base).stack[..0] == [];
  }

  lemma RunDrops(cap: nat, base: Level, types: seq<BidiClass>, k: nat)
    requires 0 <= base <= 1 && k < |types| && Run(cap, base, types, k + 1).Some?
    ensures Run(cap, base, types, k).Some?
    ensures var s := Run(cap, base, types, k).value;
            && s.stack != [] && s.Top().level <= MAX_DEPTH
            && Run(cap, base, types, k + 1) == Step(cap, s, types[k], FsiIsRtl(types, k))
            && Dropped(cap, base, types, k + 1)
               == Dropped(cap, base, types, k) + (if DropsIsolate(cap, s, types[k], FsiIsRtl(types, k)) then 1 else 0)
  {
    hide Step, DropsIsolate;
  }

  lemma StopsAtPdi(cap: nat, base: Level, types: seq<BidiClass>, k: nat)
    requires 0 <= base <= 1 && k < |types| && Run(cap, base, types, k).Some?
    ensures Run(cap, base, types, k + 1).None? <==> NothingToPop(cap, base, types, k)
  {
    ValidCountsDropped(cap, base, types, k);
    RunStep(cap, base, types, k);
    hide Run, Step, Dropped;
    StepDrops(cap, Run(cap, base, types, k).value, types[k], FsiIsRtl(types, k), Dropped(cap, base, types, k));
  }

  lemma {:induction false} RunsUpTo(cap: nat, base: Level, types: seq<BidiClass>, k: nat)
    requires 0 <= base <= 1 && k <= |types|
    ensures Run(cap, base, types, k).Some? || exists j: nat :: j < k && NothingToPop(cap, base, types, j)
  {
    hide *;
    if k == 0 {
      RunStart(cap, base, types);
    } else {
      RunsUpTo(cap, base, types, k - 1);
      if Run(cap, base, types, k - 1).Some? {
        StopsAtPdi(cap, base, types, k - 1);
      }
    }
  }

  /** The explicit pass gets through a text exactly when no PDI finds `valid_isolate` to count nothing but
      isolates whose entries were dropped; then the pop loop of X6a always stops on an isolate entry. */
  lemma CompletesIff(cap: nat, base: Level, types: seq<BidiClass>)
    requires 0 <= base <= 1
    ensures Completes(cap, base, types) <==> forall k: nat :: k < |types| ==> !NothingToPop(cap, base, types, k)
  {
    if Completes(cap, base, types) {
      forall k: nat | k < |types| ensures !NothingToPop(cap, base, types, k) {
        RunsThrough(cap, base, types, k);
        hide *;
        StopsAtPdi(cap, base, types, k);
      }
    } else {
      var k: nat :| k <= |types| && Run(cap, base, types, k).None?;
      hide *;
      RunsUpTo(cap, base, types, k);
    }
  }

  lemma RunsThrough(cap: nat, base: Level, types: seq<BidiClass>, k: nat)
    requires Completes(cap, base, types) && k < |types|
    ensures Run(cap, base, types, k).Some? && Run(cap, base, types, k + 1).Some?
  {
    hide Run;
  }

  /** 124 embeddings, RLE and LRE in turn, in front of `rest`: over base level 0 they take the stack up to
      level 124. */
  function Tower(rest: seq<BidiClass>): (types: seq<BidiClass>)
    ensures |types| == 124 + |rest|
    ensures forall i :: 0 <= i < |rest| ==> types[124 + i] == rest[i]
  {
    seq(124, i => if i % 2 == 0 then RLE else LRE) + rest
  }

  function Ramp(k: nat): (stack: seq<Entry>)
    requires k <= 124
    ensures |stack| == k + 1
  {
    seq(k + 1, i requires 0 <= i <= k => Entry(i, NoOverride, false))
  }

  lemma RampStep(cap: nat, types: seq<BidiClass>, k: nat)
    requires cap >= MAX_DEPTH && 1 <= k <= 124 && k <= |types|
    requires types[k - 1] == if k % 2 == 1 then RLE else LRE
    ensures Step(cap, Status(Ramp(k - 1), 0, 0, 0), types[k - 1], FsiIsRtl(types, k - 1)) == Some(Status(Ramp(k), 0, 0, 0))
  {
    var level: Level := k - 1;
    assert Ramp(k) == Ramp(k - 1) + [Entry(k, NoOverride, false)];
    assert NextLevel(types[k - 1], level, false) == Some(k);
  }

  lemma {:induction false} TowerClimbs(cap: nat, rest: seq<BidiClass>, k: nat)
    requires cap >= MAX_DEPTH && k <= 124
    ensures Run(cap, 0, Tower(rest), k) == Some(Status(Ramp(k), 0, 0, 0))
  {
    hide *;
    if k == 0 {
      RunStart(cap, 0, Tower(rest));
      RampStart();
    } else {
      TowerClimbs(cap, rest, k - 1);
      TowerIs(rest, k - 1);
      RampStep(cap, Tower(rest), k);
      RunStep(cap, 0, Tower(rest), k - 1);
    }
  }

  lemma RampStart()
    ensures Initial(0) == Status(Ramp(0), 0, 0, 0)
  {
    assert Ramp(0) == Initial(0).stack;
  }

  lemma TowerIs(rest: seq<BidiClass>, k: nat)
    requires k < 124
    ensures Tower(rest)[k] == if (k + 1) % 2 == 1 then RLE else LRE
  {
  }

  lemma {:induction false} NoIsolateInRamp(k: nat)
    requires k <= 124
    ensures PopIsolate(Ramp(k)) == None
  {
    if k == 0 {
      assert PopEntry(Ramp(0)) == [];
    } else {
      NoIsolateInRamp(k - 1);
      assert PopEntry(Ramp(k)) == Ramp(k - 1);
    }
  }

  lemma TowerTop(fsiRtl: bool)
    ensures Step(MAX_DEPTH, Status(Ramp(124), 0, 0, 0), RLI, fsiRtl) == Some(Status(Ramp(124), 0, 0, 1))
    ensures PopIsolate(Ramp(124)) == None ==> Step(MAX_DEPTH, Status(Ramp(124), 0, 0, 1), PDI, fsiRtl) == None
  {
    assert NextLevel(RLI, 124, fsiRtl) == Some(125);
    hide PopIsolate, LeastGreaterOdd;
  }

  /** The source panics on this text over base level 0: the RLI, which asks for level 125, is counted as a
      valid isolate but its entry is dropped, so the pop loop of its PDI runs off the stack. UAX #9 pops it. */
  lemma DroppedIsolatePanics()
    ensures Run(MAX_DEPTH, 0, Tower([RLI, PDI]), 126) == None
    ensures Run(UAX_SLOTS, 0, Tower([RLI, PDI]), 126).Some?
    ensures !NoDroppedPush(0, Tower([RLI, PDI]))
  {
    var types := Tower([RLI, PDI]);
    assert types[124] == RLI && types[125] == PDI;
    hide *;
    NoIsolateInRamp(124);
    TowerClimbs(MAX_DEPTH, [RLI, PDI], 124);
    TowerTop(FsiIsRtl(types, 124));
    RunStep(MAX_DEPTH, 0, types, 124);
    TowerTop(FsiIsRtl(types, 125));
    RunStep(MAX_DEPTH, 0, types, 125);
    UaxRunKeepsStatus(0, types, 126);
    if NoDroppedPush(0, types) {
      TracksUpTo(0, types, 126);
    }
  }
}
