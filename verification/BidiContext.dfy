/** `BidiContext`: the resolver's mutable state and the rule passes that rewrite it in place. */
module Context {
  import opened Options
  import opened BidiTypes
  import opened Isolates
  import opened LevelStacks
  import opened Explicit
  import opened Runs
  import opened RunFacts
  import opened Chains
  import opened Weak
  import opened Neutral
  import opened Brackets
  import opened Passes
  import opened InPlace
  import opened ContextFacts
  import opened Resolution
  import Whitespace
  import Reorder
  import Lines

  class BidiContext {
    var origCharTypes: seq<BidiClass>
    var charTypes: seq<BidiClass>
    var levels: seq<Level>
    var baseLevel: Level
    var runs: seq<LevelRun>

    constructor ()
      ensures origCharTypes == [] && charTypes == [] && levels == [] && baseLevel == 0 && runs == []
    {
      origCharTypes, charTypes, levels, baseLevel, runs := [], [], [], 0, [];
    }

    // X2-X5 for one character: push the entry asked for, or count an overflow.
    method OpenEmbeddingOn(stack: LevelStack, level: Option<Level>, ovr: Override, overflowIsolate: nat, overflowEmbedding: nat)
      returns (newOverflowEmbedding: nat)
      requires stack.Valid()
      modifies stack, stack.embeddingLevel, stack.overrideStatus, stack.isolateStatus
      ensures stack.Valid()
      ensures if level.Some? && overflowIsolate == 0 && overflowEmbedding == 0 then
                && stack.entries == PushEntry(MAX_DEPTH, old(stack.entries), Entry(level.value, ovr, false))
                && newOverflowEmbedding == 0
              else
                && stack.entries == old(stack.entries)
                && newOverflowEmbedding == overflowEmbedding + (if overflowIsolate == 0 then 1 else 0)
    {
      newOverflowEmbedding := overflowEmbedding;
      if level.Some? {
        if overflowIsolate == 0 && overflowEmbedding == 0 {
          stack.Push(level.value, ovr, false);
          return;
        }
      }
      if overflowIsolate == 0 {
        newOverflowEmbedding := newOverflowEmbedding + 1;
      }
    }

    // X5a-X5c for one character, after its own level has been set.
    method OpenIsolateOn(stack: LevelStack, level: Option<Level>, overflowIsolate: nat, overflowEmbedding: nat, validIsolate: nat)
      returns (newOverflowIsolate: nat, newValidIsolate: nat)
      requires stack.Valid()
      modifies stack, stack.embeddingLevel, stack.overrideStatus, stack.isolateStatus
      ensures stack.Valid()
      ensures if level.Some? && overflowIsolate == 0 && overflowEmbedding == 0 then
                && stack.entries == PushEntry(MAX_DEPTH, old(stack.entries), Entry(level.value, NoOverride, true))
                && newOverflowIsolate == 0 && newValidIsolate == validIsolate + 1
              else
                && stack.entries == old(stack.entries)
                && newOverflowIsolate == overflowIsolate + 1 && newValidIsolate == validIsolate
    {
      newOverflowIsolate, newValidIsolate := overflowIsolate, validIsolate;
      if level.Some? {
        if overflowIsolate == 0 && overflowEmbedding == 0 {
          newValidIsolate := newValidIsolate + 1;
          stack.Push(level.value, NoOverride, true);
          return;
        }
      }
      newOverflowIsolate := newOverflowIsolate + 1;
    }

    // The pop loop of X6a. It stops on an isolate entry when there is one; otherwise the source panics.
    method PopToIsolate(stack: LevelStack)
      requires stack.Valid() && PopIsolate(stack.entries).Some?
      modifies stack
      ensures stack.Valid()
      ensures Some(stack.entries) == PopIsolate(old(stack.entries))
    {
      while !stack.IsolateStatus()
        invariant stack.Valid() && stack.depth > 0
        invariant PopIsolate(stack.entries) == PopIsolate(old(stack.entries))
        decreases stack.depth
      {
        stack.Pop();
      }
      stack.Pop();
    }

    // Give the character at `idx` the level of the top entry, and its class unless the entry is neutral.
    method SetFromTop(idx: nat, stack: LevelStack)
      requires stack.Valid() && stack.depth > 0
      requires idx < |levels| == |charTypes|
      modifies this`levels, this`charTypes
      ensures levels == old(levels)[idx := TopEntry(stack.entries).level]
      ensures charTypes == old(charTypes)[idx := ApplyOverride(TopEntry(stack.entries).ovr, old(charTypes)[idx])]
    {
      levels := levels[idx := stack.EmbeddingLevel()];
      match stack.OverrideStatus() {
        case OverrideLtr => charTypes := charTypes[idx := L];
        case OverrideRtl => charTypes := charTypes[idx := R];
        case NoOverride =>
      }
    }

    // X2-X5
    method EmbeddingAt(bc: BidiClass, stack: LevelStack, overflowIsolate: nat, overflowEmbedding: nat, ghost s: Status)
      returns (newOverflowEmbedding: nat)
      requires stack.Valid() && stack.depth > 0 && 0 <= stack.EmbeddingLevel() <= MAX_DEPTH && IsEmbedding(bc)
      requires s == Status(stack.entries, overflowIsolate, overflowEmbedding, s.validIsolate)
      modifies stack, stack.embeddingLevel, stack.overrideStatus, stack.isolateStatus
      ensures stack.Valid()
      ensures OpenEmbedding(MAX_DEPTH, s, bc) == Status(stack.entries, overflowIsolate, newOverflowEmbedding, s.validIsolate)
    {
      hide PushEntry, LeastGreaterOdd, LeastGreaterEven;
      match bc {
        case RLE =>
          newOverflowEmbedding := OpenEmbeddingOn(stack, LeastGreaterOdd(stack.EmbeddingLevel()), NoOverride, overflowIsolate, overflowEmbedding);
        case LRE =>
          newOverflowEmbedding := OpenEmbeddingOn(stack, LeastGreaterEven(stack.EmbeddingLevel()), NoOverride, overflowIsolate, overflowEmbedding);
        case RLO =>
          newOverflowEmbedding := OpenEmbeddingOn(stack, LeastGreaterOdd(stack.EmbeddingLevel()), OverrideRtl, overflowIsolate, overflowEmbedding);
        case LRO =>
          newOverflowEmbedding := OpenEmbeddingOn(stack, LeastGreaterEven(stack.EmbeddingLevel()), OverrideLtr, overflowIsolate, overflowEmbedding);
      }
    }

    // X5a-X5c
    method IsolateAt(idx: nat, stack: LevelStack, overflowIsolate: nat, overflowEmbedding: nat, validIsolate: nat, ghost s: Status)
      returns (newOverflowIsolate: nat, newValidIsolate: nat)
      requires stack.Valid() && stack.depth > 0 && 0 <= stack.EmbeddingLevel() <= MAX_DEPTH
      requires idx < |levels| == |charTypes| && IsIsoInit(charTypes[idx])
      requires s == Status(stack.entries, overflowIsolate, overflowEmbedding, validIsolate)
      modifies this`levels, this`charTypes, stack, stack.embeddingLevel, stack.overrideStatus, stack.isolateStatus
      ensures stack.Valid()
      ensures OpenIsolate(MAX_DEPTH, s, old(charTypes)[idx], FsiIsRtl(old(charTypes), idx))
              == Status(stack.entries, newOverflowIsolate, overflowEmbedding, newValidIsolate)
      ensures levels == old(levels)[idx := s.Top().level]
      ensures charTypes == old(charTypes)[idx := ApplyOverride(s.Top().ovr, old(charTypes)[idx])]
    {
      hide PushEntry, ScanLevel, LeastGreaterOdd, LeastGreaterEven;
      match charTypes[idx] {
        case RLI =>
          SetFromTop(idx, stack);
          newOverflowIsolate, newValidIsolate :=
            OpenIsolateOn(stack, LeastGreaterOdd(stack.EmbeddingLevel()), overflowIsolate, overflowEmbedding, validIsolate);
        case LRI =>
          SetFromTop(idx, stack);
          newOverflowIsolate, newValidIsolate :=
            OpenIsolateOn(stack, LeastGreaterEven(stack.EmbeddingLevel()), overflowIsolate, overflowEmbedding, validIsolate);
        case FSI =>
          var level := ParagraphLevel(charTypes[idx + 1..], true, Ltr);
          ScanSuffix(charTypes, idx + 1, 0, 0, true, Ltr);
          SetFromTop(idx, stack);
          var next := if level == 1 then LeastGreaterOdd(stack.EmbeddingLevel()) else LeastGreaterEven(stack.EmbeddingLevel());
          newOverflowIsolate, newValidIsolate := OpenIsolateOn(stack, next, overflowIsolate, overflowEmbedding, validIsolate);
      }
    }

    // X6a
    method IsolateEndAt(idx: nat, stack: LevelStack, overflowIsolate: nat, overflowEmbedding: nat, validIsolate: nat, ghost s: Status)
      returns (newOverflowIsolate: nat, newOverflowEmbedding: nat, newValidIsolate: nat)
      requires stack.Valid() && idx < |levels| == |charTypes|
      requires s == Status(stack.entries, overflowIsolate, overflowEmbedding, validIsolate)
      requires CloseIsolate(s).Some? && CloseIsolate(s).value.stack != []
      modifies this`levels, this`charTypes, stack
      ensures stack.Valid()
      ensures var next := Status(stack.entries, newOverflowIsolate, newOverflowEmbedding, newValidIsolate);
              && CloseIsolate(s) == Some(next)
              && levels == old(levels)[idx := TopEntry(next.stack).level]
              && charTypes == old(charTypes)[idx := ApplyOverride(TopEntry(next.stack).ovr, old(charTypes)[idx])]
    {
      newOverflowIsolate, newOverflowEmbedding, newValidIsolate := overflowIsolate, overflowEmbedding, validIsolate;
      if overflowIsolate > 0 {
        newOverflowIsolate := overflowIsolate - 1;
      } else if validIsolate == 0 {
        // Do nothing
      } else {
        newOverflowEmbedding := 0;
        PopToIsolate(stack);
        newValidIsolate := validIsolate - 1;
      }
      SetFromTop(idx, stack);
    }

    // X7
    method EmbeddingEnd(stack: LevelStack, overflowIsolate: nat, overflowEmbedding: nat, ghost s: Status)
      returns (newOverflowEmbedding: nat)
      requires stack.Valid() && stack.depth > 0
      requires s == Status(stack.entries, overflowIsolate, overflowEmbedding, s.validIsolate)
      modifies stack
      ensures stack.Valid()
      ensures CloseEmbedding(s) == Status(stack.entries, overflowIsolate, newOverflowEmbedding, s.validIsolate)
    {
      newOverflowEmbedding := overflowEmbedding;
      if overflowIsolate > 0 {
        // Do nothing
      } else if overflowEmbedding > 0 {
        newOverflowEmbedding := overflowEmbedding - 1;
      } else {
        if !stack.IsolateStatus() {
          if stack.depth >= 2 {
            stack.Pop();
          }
        }
      }
    }

    // X2-X8 for the character at `idx`.
    method ExplicitAt(idx: nat, stack: LevelStack, overflowIsolate: nat, overflowEmbedding: nat, validIsolate: nat, ghost s: Status)
      returns (newOverflowIsolate: nat, newOverflowEmbedding: nat, newValidIsolate: nat)
      requires stack.Valid() && stack.depth > 0 && 0 <= stack.EmbeddingLevel() <= MAX_DEPTH
      requires idx < |levels| == |charTypes|
      requires s == Status(stack.entries, overflowIsolate, overflowEmbedding, validIsolate)
      requires Step(MAX_DEPTH, s, charTypes[idx], FsiIsRtl(charTypes, idx)).Some?
      requires Step(MAX_DEPTH, s, charTypes[idx], FsiIsRtl(charTypes, idx)).value.stack != []
      modifies this`levels, this`charTypes, stack, stack.embeddingLevel, stack.overrideStatus, stack.isolateStatus
      ensures stack.Valid() && |levels| == |charTypes| == |old(charTypes)|
      ensures var next := Status(stack.entries, newOverflowIsolate, newOverflowEmbedding, newValidIsolate);
              && Step(MAX_DEPTH, s, old(charTypes)[idx], FsiIsRtl(old(charTypes), idx)) == Some(next)
              && Decided(baseLevel, s, next, idx, old(charTypes), charTypes, old(levels), levels)
    {
      newOverflowIsolate, newOverflowEmbedding, newValidIsolate := overflowIsolate, overflowEmbedding, validIsolate;
      StepCases(MAX_DEPTH, s, charTypes[idx], FsiIsRtl(charTypes, idx));
      stack.DepthIsLength();
      hide Step, OpenEmbedding, OpenIsolate, CloseIsolate, CloseEmbedding, FsiIsRtl, ApplyOverride, LevelStack.Valid;
      var bc := charTypes[idx];
      if IsEmbedding(bc) {
        newOverflowEmbedding := EmbeddingAt(bc, stack, overflowIsolate, overflowEmbedding, s);
      } else if IsIsoInit(bc) {
        newOverflowIsolate, newValidIsolate := IsolateAt(idx, stack, overflowIsolate, overflowEmbedding, validIsolate, s);
      } else if bc == PDI {
        newOverflowIsolate, newOverflowEmbedding, newValidIsolate :=
          IsolateEndAt(idx, stack, overflowIsolate, overflowEmbedding, validIsolate, s);
      } else if bc == PDF {
        newOverflowEmbedding := EmbeddingEnd(stack, overflowIsolate, overflowEmbedding, s);
      } else if bc == BN {
        // Do nothing
      } else if bc == B {
        levels := levels[idx := baseLevel];
      } else {
        SetFromTop(idx, stack);
      }
    }

    // `Vec::resize`: entries of an earlier paragraph stay where they are.
    method ResizeLevels(len: nat)
      modifies this`levels
      ensures |levels| == len
    {
      levels := if len <= |levels| then levels[..len] else levels + seq(len - |levels|, _ => 0);
    }

    /** X1-X8. Levels of characters that X9 removes are left as they were. */
    method ExplicitEmbeddingLevels()
      requires 0 <= baseLevel <= 1 && Completes(MAX_DEPTH, baseLevel, charTypes)
      modifies this`levels, this`charTypes
      ensures charTypes == Classes(MAX_DEPTH, baseLevel, old(charTypes))
      ensures |levels| == |charTypes|
      ensures forall k :: 0 <= k < |levels| && !IsRemovedClass(old(charTypes)[k]) ==>
                levels[k] == LevelAt(MAX_DEPTH, baseLevel, old(charTypes), k)
    {
      ghost var types := charTypes;
      hide Run, LevelAt, ClassAt, Completes, ExplicitUpTo;
      var stack := new LevelStack();
      stack.Push(baseLevel, NoOverride, false);
      assert stack.entries == [Entry(baseLevel, NoOverride, false)];
      ResizeLevels(|charTypes|);
      RunStarts(MAX_DEPTH, baseLevel, types);
      ExplicitStart(MAX_DEPTH, baseLevel, types, levels);
      ExplicitLoop(stack);
      ExplicitDone(MAX_DEPTH, baseLevel, types, charTypes, levels);
    }

    // The loop of X2-X8.
    method ExplicitLoop(stack: LevelStack)
      requires 0 <= baseLevel <= 1 && Completes(MAX_DEPTH, baseLevel, charTypes) && |levels| == |charTypes|
      requires stack.Valid() && Run(MAX_DEPTH, baseLevel, charTypes, 0) == Some(Status(stack.entries, 0, 0, 0))
      requires ExplicitUpTo(MAX_DEPTH, baseLevel, charTypes, charTypes, levels, 0)
      modifies this`levels, this`charTypes, stack, stack.embeddingLevel, stack.overrideStatus, stack.isolateStatus
      ensures |levels| == |charTypes| == |old(charTypes)|
      ensures ExplicitUpTo(MAX_DEPTH, baseLevel, old(charTypes), charTypes, levels, |charTypes|)
    {
      ghost var types := charTypes;
      var overflowIsolate, overflowEmbedding, validIsolate := 0, 0, 0;
      hide Run, Step, Completes, ExplicitUpTo, Decided, LevelStack.Valid;
      for idx := 0 to |charTypes|
        invariant stack.Valid()
        invariant |levels| == |charTypes| == |types| && overflowIsolate >= 0 && overflowEmbedding >= 0 && validIsolate >= 0
        invariant Run(MAX_DEPTH, baseLevel, types, idx) == Some(Status(stack.entries, overflowIsolate, overflowEmbedding, validIsolate))
        invariant ExplicitUpTo(MAX_DEPTH, baseLevel, types, charTypes, levels, idx)
      {
        stack.DepthIsLength();
        ghost var s := Status(stack.entries, overflowIsolate, overflowEmbedding, validIsolate);
        RunContinues(MAX_DEPTH, baseLevel, types, idx, s);
        ExplicitView(MAX_DEPTH, baseLevel, types, charTypes, levels, idx);
        ghost var types0, levels0 := charTypes, levels;
        overflowIsolate, overflowEmbedding, validIsolate :=
          ExplicitAt(idx, stack, overflowIsolate, overflowEmbedding, validIsolate, s);
        ExplicitStep(MAX_DEPTH, baseLevel, types, types0, charTypes, levels0, levels, idx, s);
      }
    }

    /** X9 */
    method DeleteFormatCharacters()
      requires |levels| == |charTypes|
      modifies this`levels
      ensures |levels| == |charTypes|
      ensures forall k :: 0 <= k < |levels| ==>
                levels[k] == if IsRemovedClass(charTypes[k]) then NO_LEVEL else old(levels)[k]
    {
      for k := 0 to |charTypes|
        invariant |levels| == |charTypes|
        invariant forall j :: 0 <= j < k ==> levels[j] == if IsRemovedClass(charTypes[j]) then NO_LEVEL else old(levels)[j]
        invariant forall j :: k <= j < |levels| ==> levels[j] == old(levels)[j]
      {
        match charTypes[k] {
          case RLE | LRE | RLO | LRO | PDF | BN => levels := levels[k := NO_LEVEL];
          case _ =>
        }
      }
    }

    /** `calculate_sor_eor` */
    method CalculateSorEor()
      modifies this`runs
      ensures runs == WithSorEor(old(runs), baseLevel)
    {
      var priorRunLevel := baseLevel;
      for k := 0 to |runs|
        invariant |runs| == |old(runs)|
        invariant priorRunLevel == if k == 0 then baseLevel else old(runs)[k - 1].level
        invariant forall j :: 0 <= j < k ==> runs[j] == SorEor(old(runs), baseLevel, j)
        invariant forall j :: k <= j < |runs| ==> runs[j] == old(runs)[j]
      {
        var run := runs[k];
        var nextRunLevel := if k + 1 < |runs| then runs[k + 1].level else baseLevel;
        runs := runs[k := run.(sor := LevelClass(MaxLevel(priorRunLevel, run.level)),
                               eor := LevelClass(MaxLevel(nextRunLevel, run.level)))];
        priorRunLevel := run.level;
      }
    }

    /** `identify_runs` */
    method IdentifyRuns()
      requires |levels| == |charTypes|
      modifies this`runs
      ensures runs == TextOf(charTypes, levels, baseLevel).runs
    {
      SpanRuns();
      CalculateSorEor();
    }

    // The loop of `identify_runs`.
    method SpanRuns()
      requires |levels| == |charTypes|
      modifies this`runs
      ensures runs == RunsFrom(charTypes, levels, 0)
    {
      hide *;
      var idx := 0;
      runs := [];
      NoRunsYet(charTypes, levels);
      while idx < |charTypes|
        invariant 0 <= idx <= |charTypes|
        invariant runs + RunsFrom(charTypes, levels, idx) == RunsFrom(charTypes, levels, 0)
      {
        OneMoreRun(charTypes, levels, idx, runs);
        var spanLevel, spanLen := SpanOneRun(charTypes, levels, idx);
        if !Removed(spanLevel) {
          runs := runs + [LevelRun(idx, idx + spanLen, spanLen, 0, spanLevel, ON, ON)];
        }
        idx := idx + spanLen;
      }
      RunsFromEnd(charTypes, levels);
    }

    // The text whose runs have been identified, before they are assigned to sequences.
    ghost predicate Identified(text: Text)
      reads this
    {
      && text.types == charTypes && text.levels == levels
      && |text.runs| == |runs|
      && forall k :: 0 <= k < |runs| ==> runs[k] == text.runs[k].(seqId := runs[k].seqId)
    }

    // Runs already assigned to a sequence.
    ghost function Assigned(): set<nat>
      reads this
    {
      set k: nat | k < |runs| && runs[k].seqId != 0
    }

    // Append run `idx` to the sequence `isoRun`.
    method AppendRun(idx: nat, seqId: nat, isoRun: IsoSeq, ghost text: Text) returns (result: IsoSeq)
      requires TextOk(text) && Identified(text) && idx < |runs| && seqId > 0
      requires isoRun.runs != [] && MembersInText(text, isoRun.runs) && isoRun == Draft(text, isoRun.runs)
      modifies this`runs
      ensures Identified(text) && Assigned() == old(Assigned()) + {idx}
      ensures result.runs == isoRun.runs + [idx] && MembersInText(text, result.runs) && result == Draft(text, result.runs)
    {
      hide LengthOf;
      assert RunInText(text, idx);
      DraftGrows(text, isoRun.runs, idx);
      result := isoRun.(runs := isoRun.runs + [idx], len := isoRun.len + runs[idx].len);
      runs := runs[idx := runs[idx].(seqId := seqId)];
    }

    // Whether run `idx` continues a sequence of level `saveLevel`.
    method Continues(idx: nat, saveLevel: Level, ghost text: Text) returns (yes: bool)
      requires TextOk(text) && Identified(text) && idx < |runs|
      ensures RunInText(text, idx)
      ensures yes <==> idx !in Assigned() && text.runs[idx].level == saveLevel && StartsWithPdi(text, idx)
    {
      assert RunInText(text, idx);
      if runs[idx].seqId == 0 && runs[idx].level == saveLevel {
        var first := FirstSignificantBidiClass(runs[idx], charTypes, levels);
        yes := first == Some(PDI);
      } else {
        yes := false;
      }
    }

    // Look ahead from `runIdx` for the runs that continue the sequence it starts.
    method ContinueSequence(runIdx: nat, seqId: nat, isoRun: IsoSeq, ghost text: Text) returns (result: IsoSeq)
      requires TextOk(text) && Identified(text) && runIdx < |runs| && seqId > 0
      requires MembersInText(text, [runIdx]) && isoRun == Draft(text, [runIdx]) && runIdx in Assigned()
      modifies this`runs
      ensures Identified(text)
      ensures var s := [runIdx] + Chain(text, old(Assigned()), text.runs[runIdx].level, runIdx + 1);
              MembersInText(text, s) && result == Draft(text, s) && Assigned() == old(Assigned()) + AsSet(s)
    {
      result := isoRun;
      assert result.runs == [runIdx];
      ghost var taken, level := Assigned(), text.runs[runIdx].level;
      ghost var full := [runIdx] + Chain(text, taken, level, runIdx + 1);
      var saveLevel := runs[runIdx].level;
      assert AsSet([runIdx]) == {runIdx};
      hide Chain, StartsWithPdi, EndsInInitiator, LengthOf, Assigned, Draft, AsSet, Identified, TextOk;
      for idx := runIdx + 1 to |runs|
        invariant Identified(text)
        invariant result.runs != [] && MembersInText(text, result.runs) && result == Draft(text, result.runs)
        invariant forall x :: x in result.runs ==> x < idx
        invariant Assigned() == taken + AsSet(result.runs)
        invariant result.runs + Chain(text, taken, level, idx) == full
      {
        ChainStep(text, taken, level, idx);
        AsSetGrows(result.runs, idx);
        ghost var before := result.runs;
        var yes := Continues(idx, saveLevel, text);
        if yes {
          result := AppendRun(idx, seqId, result, text);
          ConcatAssoc(before, [idx], Chain(text, taken, level, idx + 1));
          var more := EndsWithInitiator(idx, text);
          if !more {
            assert result.runs == full;
            return;
          }
        }
      }
      ChainEnds(text, taken, level, |runs|);
      assert result.runs == full;
    }

    method EndsWithInitiator(idx: nat, ghost text: Text) returns (yes: bool)
      requires TextOk(text) && Identified(text) && idx < |runs|
      ensures RunInText(text, idx)
      ensures yes <==> EndsInInitiator(text, idx)
    {
      assert RunInText(text, idx);
      yes := IsIsoInit(charTypes[runs[idx].end - 1]);
    }

    lemma RunCount(text: Text)
      requires Identified(text)
      ensures |runs| == |text.runs|
    {
    }

    /** `identify_isolating_run_sequences`, before the sequences get their sos, eos and indices. */
    method AssignRuns(ghost text: Text) returns (isoRuns: seq<IsoSeq>)
      requires TextOk(text) && Identified(text) && Assigned() == {}
      modifies this`runs
      ensures Identified(text)
      ensures SequencesInText(text, Sequences(text, {}, 0))
      ensures isoRuns == Drafts(text, Sequences(text, {}, 0))
    {
      ghost var all := Sequences(text, {}, 0);
      ghost var done: seq<seq<nat>> := [];
      var seqId := 0;
      isoRuns := [];
      hide Sequences, SequenceFrom, Draft, Drafts, Assigned, AsSet, Chain, Identified, TextOk, SequencesInText, MembersInText;
      NoDrafts(text);
      RunCount(text);
      for runIdx := 0 to |runs|
        invariant Identified(text) && seqId >= 0 && |runs| == |text.runs|
        invariant SequencesInText(text, done) && isoRuns == Drafts(text, done)
        invariant done + Sequences(text, Assigned(), runIdx) == all
      {
        ghost var marked := Assigned();
        SequencesStep(text, marked, runIdx);
        var taken := IsAssigned(runIdx);
        if !taken {
          seqId := seqId + 1;
          ghost var s := SequenceFrom(text, marked, runIdx);
          var isoRun := StartSequence(runIdx, seqId, text);
          DraftsGrow(text, done, s);
          ConcatAssoc(done, [s], Sequences(text, marked + AsSet(s), runIdx + 1));
          isoRuns := isoRuns + [isoRun];
          done := done + [s];
        }
      }
      SequencesEnd(text, Assigned(), |runs|);
    }

    method IsAssigned(runIdx: nat) returns (yes: bool)
      requires runIdx < |runs|
      ensures yes <==> runIdx in Assigned()
    {
      yes := runs[runIdx].seqId != 0;
    }

    // One sequence: the run that starts it and the runs that continue it.
    method StartSequence(runIdx: nat, seqId: nat, ghost text: Text) returns (isoRun: IsoSeq)
      requires TextOk(text) && Identified(text) && runIdx < |runs| && runIdx !in Assigned() && seqId > 0
      modifies this`runs
      ensures Identified(text) && |runs| == |text.runs|
      ensures var s := SequenceFrom(text, old(Assigned()), runIdx);
              s != [] && MembersInText(text, s) && isoRun == Draft(text, s) && Assigned() == old(Assigned()) + AsSet(s)
    {
      assert RunInText(text, runIdx);
      ghost var taken := Assigned();
      isoRun := IsoSeq([runIdx], runs[runIdx].len, runs[runIdx].level, ON, ON, []);
      runs := runs[runIdx := runs[runIdx].(seqId := seqId)];
      assert AsSet([runIdx]) == {runIdx} && Assigned() == taken + {runIdx};
      SingleDraft(text, runIdx);
      hide Draft, Chain, AsSet, Assigned;
      var more := EndsWithInitiator(runIdx, text);
      if !more {
        return;
      }
      ChainIgnoresStart(text, taken, text.runs[runIdx].level, runIdx, runIdx + 1);
      ghost var marked := Assigned();
      isoRun := ContinueSequence(runIdx, seqId, isoRun, text);
      AsSetHas([runIdx] + Chain(text, taken, text.runs[runIdx].level, runIdx + 1), runIdx);
    }

    /** `calculate_sos_eos` */
    method CalculateSosEos(isoRuns: seq<IsoSeq>, ghost text: Text, ghost ss: seq<seq<nat>>) returns (result: seq<IsoSeq>)
      requires TextOk(text) && Identified(text) && SequencesInText(text, ss) && isoRuns == Drafts(text, ss)
      ensures |result| == |ss|
      ensures forall a :: 0 <= a < |ss| ==> result[a] == BuildSequence(text, baseLevel, ss[a]).(indices := [])
    {
      result := isoRuns;
      hide LengthOf, IndicesOf;
      for a := 0 to |isoRuns|
        invariant |result| == |isoRuns|
        invariant forall d :: 0 <= d < a ==> result[d] == BuildSequence(text, baseLevel, ss[d]).(indices := [])
        invariant forall d :: a <= d < |result| ==> result[d] == isoRuns[d]
      {
        var isoRun := result[a];
        assert isoRun.runs == ss[a];
        var first := isoRun.runs[0];
        var last := isoRun.runs[|isoRun.runs| - 1];
        assert RunInText(text, first) && RunInText(text, last);
        isoRun := isoRun.(sos := runs[first].sor, eos := runs[last].eor);
        if IsIsoInit(charTypes[runs[last].end - 1]) {
          isoRun := isoRun.(eos := LevelClass(MaxLevel(baseLevel, isoRun.level)));
        }
        result := result[a := isoRun];
      }
    }

    // The index list of one sequence.
    method TextChain(members: seq<nat>, ghost text: Text) returns (indices: seq<nat>)
      requires TextOk(text) && Identified(text) && MembersInText(text, members)
      ensures indices == IndicesOf(text, members)
    {
      indices := [];
      for m := 0 to |members|
        invariant indices == IndicesOf(text, members[..m])
      {
        assert RunInText(text, members[m]);
        var run := runs[members[m]];
        indices := indices + Span(run.start, run.end);
        assert members[..m + 1][..m] == members[..m];
      }
      assert members[..|members|] == members;
    }

    /** `build_text_chains` */
    method BuildTextChains(isoRuns: seq<IsoSeq>, ghost text: Text, ghost ss: seq<seq<nat>>) returns (result: seq<IsoSeq>)
      requires TextOk(text) && Identified(text) && SequencesInText(text, ss) && |isoRuns| == |ss|
      requires forall a :: 0 <= a < |ss| ==> isoRuns[a] == BuildSequence(text, baseLevel, ss[a]).(indices := [])
      ensures result == BuildAll(text, baseLevel, ss)
    {
      result := isoRuns;
      hide LengthOf, IndicesOf;
      for a := 0 to |isoRuns|
        invariant |result| == |isoRuns|
        invariant forall d :: 0 <= d < a ==> result[d] == BuildSequence(text, baseLevel, ss[d])
        invariant forall d :: a <= d < |result| ==> result[d] == isoRuns[d]
      {
        var indices := TextChain(result[a].runs, text);
        result := result[a := result[a].(indices := indices)];
      }
    }

    /** `identify_isolating_run_sequences` */
    method IdentifyIsolatingRunSequences() returns (isoRuns: seq<IsoSeq>)
      requires |levels| == |charTypes|
      requires runs == TextOf(charTypes, levels, baseLevel).runs
      modifies this`runs
      ensures isoRuns == SequencesOfText(charTypes, levels, baseLevel)
    {
      ghost var text := TextOf(charTypes, levels, baseLevel);
      TextOfIsTiled(charTypes, levels, baseLevel);
      NothingAssigned(charTypes, levels, baseLevel);
      assert Assigned() == {};
      ghost var ss := Sequences(text, {}, 0);
      isoRuns := AssignRuns(text);
      isoRuns := CalculateSosEos(isoRuns, text, ss);
      isoRuns := BuildTextChains(isoRuns, text, ss);
    }

    /** The environment describes this context, and the chain of `s` is well formed. */
    ghost predicate Here(env: Env, s: IsoSeq)
      reads this
    {
      && env.levels == levels && env.orig == origCharTypes
      && |levels| == |origCharTypes| == |charTypes|
      && (env.paragraph == [] || |env.paragraph| == |levels|)
      && InRange(s, |charTypes|) && Increasing(s.indices)
      && CtxOk(CtxOf(env, s), Gather(charTypes, s.indices))
    }

    ghost predicate Ready(env: Env, isoRuns: seq<IsoSeq>)
      reads this
    {
      && env.levels == levels && env.orig == origCharTypes
      && EnvOk(env, isoRuns, charTypes)
    }

    // W1
    method CombiningMarksIn(isoRun: IsoSeq, ghost env: Env)
      requires Here(env, isoRun)
      modifies this`charTypes
      ensures IsRewrite(old(charTypes), charTypes, isoRun.indices, W1(CtxOf(env, isoRun), Gather(old(charTypes), isoRun.indices)))
    {
      ghost var before := charTypes;
      ghost var c, cls := CtxOf(env, isoRun), Gather(charTypes, isoRun.indices);
      ghost var vals := W1(c, cls);
      var ind := isoRun.indices;
      var priorBc := isoRun.sos;
      assert |vals| == |cls| == |ind| && c.levels == Gather(levels, ind) && isoRun.sos == c.sos && Increasing(ind);
      assert |levels| == |before| && forall m :: 0 <= m < |ind| ==> ind[m] < |levels|;
      hide *;
      ForwardStart(before, ind, vals);
      LastBaseStart(c, cls);
      for k := 0 to |ind|
        invariant priorBc == LastBase(c, cls, k)
        invariant Forward(before, charTypes, ind, k, vals)
      {
        var idx := ind[k];
        ghost var now := charTypes;
        ForwardView(before, now, ind, k, vals);
        W1Step(c, cls, k);
        GatherAt(levels, ind, k);
        if charTypes[idx] == NSM {
          charTypes := charTypes[idx := priorBc];
          ForwardSet(before, now, ind, k, vals, priorBc);
        } else {
          ForwardSkip(before, now, ind, k, vals);
          if !Removed(levels[idx]) {
            priorBc := charTypes[idx];
          }
        }
      }
      ForwardDone(before, charTypes, ind, vals);
    }

    /** W1 for every sequence. */
    method ResolveCombiningMarks(isoRuns: seq<IsoSeq>, ghost env: Env)
      requires Ready(env, isoRuns)
      modifies this`charTypes
      ensures Passed(RuleW1, env, isoRuns, |isoRuns|, old(charTypes), charTypes)
    {
      PassedStart(RuleW1, env, isoRuns, charTypes);
      hide EnvOk, Passed, CtxOk, CtxOf, Increasing, InRange, IsRewrite, Apply, W1, W2, W3, W4, W5, W6, W7, N1, N2;
      for a := 0 to |isoRuns|
        invariant Passed(RuleW1, env, isoRuns, a, old(charTypes), charTypes)
      {
        PassedGivesCtx(RuleW1, env, isoRuns, a, old(charTypes), charTypes);
        ApplyIs(CtxOf(env, isoRuns[a]), Gather(charTypes, isoRuns[a].indices));
        ghost var now := charTypes;
        CombiningMarksIn(isoRuns[a], env);
        PassedStep(RuleW1, env, isoRuns, a, old(charTypes), now, charTypes);
      }
    }

    // The backward scan of W2 for the first strong type.
    method FirstStrongBefore(ridx: nat, indices: seq<nat>, sos: BidiClass) returns (bc: BidiClass)
      requires ridx <= |indices|
      requires forall m :: 0 <= m < |indices| ==> indices[m] < |charTypes|
      ensures bc == LastStrong(sos, Gather(charTypes, indices), ridx)
    {
      ghost var cls := Gather(charTypes, indices);
      var p := ridx;
      while p > 0
        invariant 0 <= p <= ridx
        invariant LastStrong(sos, cls, ridx) == LastStrong(sos, cls, p)
      {
        p := p - 1;
        if IsStrong(charTypes[indices[p]]) {
          return charTypes[indices[p]];
        }
      }
      return sos;
    }

    // W2
    method EuropeanNumbersIn(isoRun: IsoSeq, ghost env: Env)
      requires Here(env, isoRun)
      modifies this`charTypes
      ensures IsRewrite(old(charTypes), charTypes, isoRun.indices, W2(CtxOf(env, isoRun), Gather(old(charTypes), isoRun.indices)))
    {
      ghost var before := charTypes;
      ghost var c, cls := CtxOf(env, isoRun), Gather(charTypes, isoRun.indices);
      var ind := isoRun.indices;
      ghost var vals := W2(c, cls);
      ForwardStart(before, ind, vals);
      assert |cls| == |ind| && isoRun.sos == c.sos && Increasing(ind);
      hide CtxOk, CtxOf, Forward, LastStrong, Here, Gather, Increasing;
      for ridx := 0 to |ind|
        invariant Forward(before, charTypes, ind, ridx, vals)
      {
        var cidx := ind[ridx];
        ghost var now := charTypes;
        ForwardView(before, now, ind, ridx, vals);
        if charTypes[cidx] == EN {
          var firstStrongBc := FirstStrongBefore(ridx, ind, isoRun.sos);
          W2KeepsStrong(c, cls, Gather(now, ind), ridx);
          if firstStrongBc == AL {
            charTypes := charTypes[cidx := AN];
            ForwardSet(before, now, ind, ridx, vals, AN);
          } else {
            ForwardSkip(before, now, ind, ridx, vals);
          }
        } else {
          ForwardSkip(before, now, ind, ridx, vals);
        }
      }
      ForwardDone(before, charTypes, ind, vals);
    }

    /** W2 for every sequence. */
    method ResolveEuropeanNumbers(isoRuns: seq<IsoSeq>, ghost env: Env)
      requires Ready(env, isoRuns)
      modifies this`charTypes
      ensures Passed(RuleW2, env, isoRuns, |isoRuns|, old(charTypes), charTypes)
    {
      PassedStart(RuleW2, env, isoRuns, charTypes);
      hide EnvOk, Passed, CtxOk, CtxOf, Increasing, InRange, IsRewrite, Apply, W1, W2, W3, W4, W5, W6, W7, N1, N2;
      for a := 0 to |isoRuns|
        invariant Passed(RuleW2, env, isoRuns, a, old(charTypes), charTypes)
      {
        PassedGivesCtx(RuleW2, env, isoRuns, a, old(charTypes), charTypes);
        ApplyIs(CtxOf(env, isoRuns[a]), Gather(charTypes, isoRuns[a].indices));
        ghost var now := charTypes;
        EuropeanNumbersIn(isoRuns[a], env);
        PassedStep(RuleW2, env, isoRuns, a, old(charTypes), now, charTypes);
      }
    }

    // W3
    method ArabicLettersIn(isoRun: IsoSeq, ghost env: Env)
      requires Here(env, isoRun)
      modifies this`charTypes
      ensures IsRewrite(old(charTypes), charTypes, isoRun.indices, W3(CtxOf(env, isoRun), Gather(old(charTypes), isoRun.indices)))
    {
      ghost var before := charTypes;
      ghost var c, cls := CtxOf(env, isoRun), Gather(charTypes, isoRun.indices);
      var ind := isoRun.indices;
      ghost var vals := W3(c, cls);
      ForwardStart(before, ind, vals);
      assert |cls| == |ind| && Increasing(ind);
      hide CtxOk, CtxOf, Forward, Here, Gather, Increasing;
      for k := 0 to |ind|
        invariant Forward(before, charTypes, ind, k, vals)
      {
        ghost var now := charTypes;
        ForwardView(before, now, ind, k, vals);
        if charTypes[ind[k]] == AL {
          charTypes := charTypes[ind[k] := R];
          ForwardSet(before, now, ind, k, vals, R);
        } else {
          ForwardSkip(before, now, ind, k, vals);
        }
      }
      ForwardDone(before, charTypes, ind, vals);
    }

    /** W3 for every sequence. */
    method ResolveArabicLetters(isoRuns: seq<IsoSeq>, ghost env: Env)
      requires Ready(env, isoRuns)
      modifies this`charTypes
      ensures Passed(RuleW3, env, isoRuns, |isoRuns|, old(charTypes), charTypes)
    {
      PassedStart(RuleW3, env, isoRuns, charTypes);
      hide EnvOk, Passed, CtxOk, CtxOf, Increasing, InRange, IsRewrite, Apply, W1, W2, W3, W4, W5, W6, W7, N1, N2;
      for a := 0 to |isoRuns|
        invariant Passed(RuleW3, env, isoRuns, a, old(charTypes), charTypes)
      {
        PassedGivesCtx(RuleW3, env, isoRuns, a, old(charTypes), charTypes);
        ApplyIs(CtxOf(env, isoRuns[a]), Gather(charTypes, isoRuns[a].indices));
        ghost var now := charTypes;
        ArabicLettersIn(isoRuns[a], env);
        PassedStep(RuleW3, env, isoRuns, a, old(charTypes), now, charTypes);
      }
    }

    /** `is_prior_context`: the index of the previous character of the chain that was not removed, when
        its class is `bc`. */
    method IsPriorContext(indexIdx: nat, indices: seq<nat>, bc: BidiClass) returns (r: Option<nat>)
      requires indexIdx <= |indices| && |levels| == |charTypes|
      requires forall m :: 0 <= m < |indices| ==> indices[m] < |charTypes|
      requires NeverRemoved(Gather(levels, indices), Gather(charTypes, indices), bc)
      ensures var p := PrevKept(Gather(levels, indices), indexIdx);
              r == if p >= 0 && charTypes[indices[p]] == bc then Some(indices[p]) else None
    {
      ghost var kept := Gather(levels, indices);
      var m := indexIdx;
      while m > 0
        invariant 0 <= m <= indexIdx
        invariant PrevKept(kept, indexIdx) == PrevKept(kept, m)
      {
        m := m - 1;
        if charTypes[indices[m]] == bc {
          return Some(indices[m]);
        }
        if !Removed(levels[indices[m]]) {
          break;
        }
      }
      return None;
    }

    /** `is_following_context`: likewise for the next character. */
    method IsFollowingContext(indexIdx: nat, indices: seq<nat>, bc: BidiClass) returns (r: Option<nat>)
      requires indexIdx < |indices| && |levels| == |charTypes|
      requires forall m :: 0 <= m < |indices| ==> indices[m] < |charTypes|
      requires NeverRemoved(Gather(levels, indices), Gather(charTypes, indices), bc)
      ensures var n := NextKept(Gather(levels, indices), indexIdx + 1);
              r == if n < |indices| && charTypes[indices[n]] == bc then Some(indices[n]) else None
    {
      ghost var kept := Gather(levels, indices);
      for m := indexIdx + 1 to |indices|
        invariant NextKept(kept, indexIdx + 1) == NextKept(kept, m)
      {
        if charTypes[indices[m]] == bc {
          return Some(indices[m]);
        }
        if !Removed(levels[indices[m]]) {
          break;
        }
      }
      return None;
    }

    method IsInContext(indexIdx: nat, indices: seq<nat>, bc: BidiClass) returns (r: bool)
      requires indexIdx < |indices| && |levels| == |charTypes|
      requires forall m :: 0 <= m < |indices| ==> indices[m] < |charTypes|
      requires NeverRemoved(Gather(levels, indices), Gather(charTypes, indices), bc)
      ensures r <==> Between(Gather(levels, indices), Gather(charTypes, indices), indexIdx, bc)
    {
      var prior := IsPriorContext(indexIdx, indices, bc);
      if prior.None? {
        return false;
      }
      var following := IsFollowingContext(indexIdx, indices, bc);
      return following.Some?;
    }

    // W4 for one character.
    method SeparatorAt(k: nat, ind: seq<nat>)
      requires k < |ind| && |levels| == |charTypes|
      requires forall m :: 0 <= m < |ind| ==> ind[m] < |charTypes|
      requires NeverRemoved(Gather(levels, ind), Gather(charTypes, ind), EN)
      requires NeverRemoved(Gather(levels, ind), Gather(charTypes, ind), AN)
      modifies this`charTypes
      ensures charTypes == old(charTypes)[ind[k] :=
                SeparatorClass(Gather(levels, ind), Gather(old(charTypes), ind), k)]
    {
      hide Between, NeverRemoved;
      var idx := ind[k];
      if charTypes[idx] == ES {
        var en := IsInContext(k, ind, EN);
        if en {
          charTypes := charTypes[idx := EN];
        }
      } else if charTypes[idx] == CS {
        var en := IsInContext(k, ind, EN);
        if en {
          charTypes := charTypes[idx := EN];
        } else {
          var an := IsInContext(k, ind, AN);
          if an {
            charTypes := charTypes[idx := AN];
          }
        }
      }
    }

    // W4
    method SeparatorsIn(isoRun: IsoSeq, ghost env: Env)
      requires Here(env, isoRun)
      modifies this`charTypes
      ensures IsRewrite(old(charTypes), charTypes, isoRun.indices, W4(CtxOf(env, isoRun), Gather(old(charTypes), isoRun.indices)))
    {
      ghost var before := charTypes;
      ghost var c, cls := CtxOf(env, isoRun), Gather(charTypes, isoRun.indices);
      var ind := isoRun.indices;
      ghost var vals := W4(c, cls);
      assert forall m :: 0 <= m < |ind| ==> vals[m] == SeparatorClass(c.levels, cls, m);
      assert c.levels == Gather(levels, ind) && |cls| == |ind| && Increasing(ind);
      hide CtxOf, Forward, SeparatorClass, Between, NeverRemoved, Here, W4, Gather, Increasing;
      ForwardStart(before, ind, vals);
      for k := 0 to |ind|
        invariant Forward(before, charTypes, ind, k, vals)
      {
        ghost var now := charTypes;
        ForwardView(before, now, ind, k, vals);
        W4InPlace(c, cls, Gather(now, ind), k);
        ForwardSet(before, now, ind, k, vals, vals[k]);
        SeparatorAt(k, ind);
      }
      ForwardDone(before, charTypes, ind, vals);
    }

    /** W4 for every sequence. */
    method ResolveSeparators(isoRuns: seq<IsoSeq>, ghost env: Env)
      requires Ready(env, isoRuns)
      modifies this`charTypes
      ensures Passed(RuleW4, env, isoRuns, |isoRuns|, old(charTypes), charTypes)
    {
      PassedStart(RuleW4, env, isoRuns, charTypes);
      hide EnvOk, Passed, CtxOk, CtxOf, Increasing, InRange, IsRewrite, Apply, W1, W2, W3, W4, W5, W6, W7, N1, N2;
      for a := 0 to |isoRuns|
        invariant Passed(RuleW4, env, isoRuns, a, old(charTypes), charTypes)
      {
        PassedGivesCtx(RuleW4, env, isoRuns, a, old(charTypes), charTypes);
        ApplyIs(CtxOf(env, isoRuns[a]), Gather(charTypes, isoRuns[a].indices));
        ghost var now := charTypes;
        SeparatorsIn(isoRuns[a], env);
        PassedStep(RuleW4, env, isoRuns, a, old(charTypes), now, charTypes);
      }
    }

    // W5: change the terminators before position `k` of the chain, up to the first other character.
    method TerminatorsBefore(k: nat, ind: seq<nat>) returns (ghost lo: int)
      requires k < |ind| && |levels| == |charTypes| && Increasing(ind)
      requires forall m :: 0 <= m < |ind| ==> ind[m] < |charTypes|
      modifies this`charTypes
      ensures Holding(old(charTypes), charTypes, ind)
      ensures var was, now, kept := Gather(old(charTypes), ind), Gather(charTypes, ind), Gather(levels, ind);
              && -1 <= lo < k
              && (forall m :: 0 <= m < |ind| ==> now[m] == if lo < m < k && was[m] == ET then EN else was[m])
              && (forall m :: lo < m < k ==> was[m] == ET || Removed(kept[m]))
              && (lo >= 0 ==> was[lo] != ET && !Removed(kept[lo]))
    {
      ghost var before := charTypes;
      var p := k;
      while p > 0
        invariant 0 <= p <= k
        invariant Holding(before, charTypes, ind)
        invariant forall m :: 0 <= m < |ind| ==>
                    charTypes[ind[m]] == if p <= m < k && before[ind[m]] == ET then EN else before[ind[m]]
        invariant forall m :: p <= m < k ==> before[ind[m]] == ET || Removed(levels[ind[m]])
      {
        var priorIdx := ind[p - 1];
        if charTypes[priorIdx] == ET {
          charTypes := charTypes[priorIdx := EN];
        } else if !Removed(levels[priorIdx]) {
          return p - 1;
        }
        p := p - 1;
      }
      return -1;
    }

    // W5: likewise after position `k`.
    method TerminatorsAfter(k: nat, ind: seq<nat>) returns (ghost hi: nat)
      requires k < |ind| && |levels| == |charTypes| && Increasing(ind)
      requires forall m :: 0 <= m < |ind| ==> ind[m] < |charTypes|
      modifies this`charTypes
      ensures Holding(old(charTypes), charTypes, ind)
      ensures var was, now, kept := Gather(old(charTypes), ind), Gather(charTypes, ind), Gather(levels, ind);
              && k < hi <= |ind|
              && (forall m :: 0 <= m < |ind| ==> now[m] == if k < m < hi && was[m] == ET then EN else was[m])
              && (forall m :: k < m < hi ==> was[m] == ET || Removed(kept[m]))
              && (hi < |ind| ==> was[hi] != ET && !Removed(kept[hi]))
    {
      ghost var before := charTypes;
      for n := k + 1 to |ind|
        invariant Holding(before, charTypes, ind)
        invariant forall m :: 0 <= m < |ind| ==>
                    charTypes[ind[m]] == if k < m < n && before[ind[m]] == ET then EN else before[ind[m]]
        invariant forall m :: k < m < n ==> before[ind[m]] == ET || Removed(levels[ind[m]])
      {
        var nextIdx := ind[n];
        if charTypes[nextIdx] == ET {
          charTypes := charTypes[nextIdx := EN];
        } else if !Removed(levels[nextIdx]) {
          return n;
        }
      }
      return |ind|;
    }

    // W5: both scans from an EN at position `k`.
    method SweepTerminators(k: nat, ind: seq<nat>) returns (ghost lo: int, ghost hi: nat)
      requires k < |ind| && |levels| == |charTypes| && Increasing(ind)
      requires forall m :: 0 <= m < |ind| ==> ind[m] < |charTypes|
      requires charTypes[ind[k]] == EN
      modifies this`charTypes
      ensures Holding(old(charTypes), charTypes, ind)
      ensures Swept(Gather(levels, ind), Gather(old(charTypes), ind), Gather(charTypes, ind), lo, k, hi)
    {
      lo := TerminatorsBefore(k, ind);
      hi := TerminatorsAfter(k, ind);
    }

    // W5
    method TerminatorsIn(isoRun: IsoSeq, ghost env: Env)
      requires Here(env, isoRun)
      modifies this`charTypes
      ensures IsRewrite(old(charTypes), charTypes, isoRun.indices, W5(CtxOf(env, isoRun), Gather(old(charTypes), isoRun.indices)))
    {
      ghost var before := charTypes;
      ghost var c, cls := CtxOf(env, isoRun), Gather(charTypes, isoRun.indices);
      var ind := isoRun.indices;
      SpreadStart(c, cls);
      hide CtxOk, Spread, W5At, Swept;
      for k := 0 to |ind|
        invariant Holding(before, charTypes, ind)
        invariant Spread(c, cls, Gather(charTypes, ind), k)
      {
        ghost var now := Gather(charTypes, ind);
        if charTypes[ind[k]] == EN {
          ghost var lo, hi := SweepTerminators(k, ind);
          SpreadSweep(c, cls, now, Gather(charTypes, ind), lo, k, hi);
        } else {
          SpreadSkip(c, cls, now, k);
        }
      }
      SpreadIsW5(c, cls, Gather(charTypes, ind));
    }

    /** W5 for every sequence. */
    method ResolveTerminators(isoRuns: seq<IsoSeq>, ghost env: Env)
      requires Ready(env, isoRuns)
      modifies this`charTypes
      ensures Passed(RuleW5, env, isoRuns, |isoRuns|, old(charTypes), charTypes)
    {
      PassedStart(RuleW5, env, isoRuns, charTypes);
      hide EnvOk, Passed, CtxOk, CtxOf, Increasing, InRange, IsRewrite, Apply, W1, W2, W3, W4, W5, W6, W7, N1, N2;
      for a := 0 to |isoRuns|
        invariant Passed(RuleW5, env, isoRuns, a, old(charTypes), charTypes)
      {
        PassedGivesCtx(RuleW5, env, isoRuns, a, old(charTypes), charTypes);
        ApplyIs(CtxOf(env, isoRuns[a]), Gather(charTypes, isoRuns[a].indices));
        ghost var now := charTypes;
        TerminatorsIn(isoRuns[a], env);
        PassedStep(RuleW5, env, isoRuns, a, old(charTypes), now, charTypes);
      }
    }

    // W6
    method EsCsEtIn(isoRun: IsoSeq, ghost env: Env)
      requires Here(env, isoRun)
      modifies this`charTypes
      ensures IsRewrite(old(charTypes), charTypes, isoRun.indices, W6(CtxOf(env, isoRun), Gather(old(charTypes), isoRun.indices)))
    {
      ghost var before := charTypes;
      ghost var c, cls := CtxOf(env, isoRun), Gather(charTypes, isoRun.indices);
      var ind := isoRun.indices;
      ghost var vals := W6(c, cls);
      ForwardStart(before, ind, vals);
      assert |cls| == |ind| && Increasing(ind);
      hide CtxOk, CtxOf, Forward, Here, Gather, Increasing;
      for k := 0 to |ind|
        invariant Forward(before, charTypes, ind, k, vals)
      {
        ghost var now := charTypes;
        ForwardView(before, now, ind, k, vals);
        if IsSeparator(charTypes[ind[k]]) || charTypes[ind[k]] == ET {
          charTypes := charTypes[ind[k] := ON];
          ForwardSet(before, now, ind, k, vals, ON);
        } else {
          ForwardSkip(before, now, ind, k, vals);
        }
      }
      ForwardDone(before, charTypes, ind, vals);
    }

    /** W6 for every sequence. */
    method ResolveEsCsEt(isoRuns: seq<IsoSeq>, ghost env: Env)
      requires Ready(env, isoRuns)
      modifies this`charTypes
      ensures Passed(RuleW6, env, isoRuns, |isoRuns|, old(charTypes), charTypes)
    {
      PassedStart(RuleW6, env, isoRuns, charTypes);
      hide EnvOk, Passed, CtxOk, CtxOf, Increasing, InRange, IsRewrite, Apply, W1, W2, W3, W4, W5, W6, W7, N1, N2;
      for a := 0 to |isoRuns|
        invariant Passed(RuleW6, env, isoRuns, a, old(charTypes), charTypes)
      {
        PassedGivesCtx(RuleW6, env, isoRuns, a, old(charTypes), charTypes);
        ApplyIs(CtxOf(env, isoRuns[a]), Gather(charTypes, isoRuns[a].indices));
        ghost var now := charTypes;
        EsCsEtIn(isoRuns[a], env);
        PassedStep(RuleW6, env, isoRuns, a, old(charTypes), now, charTypes);
      }
    }

    // The backward scan of W7 for the first L or R.
    method FirstLetterBefore(ridx: nat, indices: seq<nat>, sos: BidiClass) returns (bc: BidiClass)
      requires ridx <= |indices|
      requires forall m :: 0 <= m < |indices| ==> indices[m] < |charTypes|
      ensures bc == LastLetter(sos, Gather(charTypes, indices), ridx)
    {
      ghost var cls := Gather(charTypes, indices);
      var p := ridx;
      while p > 0
        invariant 0 <= p <= ridx
        invariant LastLetter(sos, cls, ridx) == LastLetter(sos, cls, p)
      {
        p := p - 1;
        if charTypes[indices[p]] == L || charTypes[indices[p]] == R {
          return charTypes[indices[p]];
        }
      }
      return sos;
    }

    // W7
    method EnIn(isoRun: IsoSeq, ghost env: Env)
      requires Here(env, isoRun)
      modifies this`charTypes
      ensures IsRewrite(old(charTypes), charTypes, isoRun.indices, W7(CtxOf(env, isoRun), Gather(old(charTypes), isoRun.indices)))
    {
      ghost var before := charTypes;
      ghost var c, cls := CtxOf(env, isoRun), Gather(charTypes, isoRun.indices);
      var ind := isoRun.indices;
      ghost var vals := W7(c, cls);
      assert |cls| == |ind| && isoRun.sos == c.sos && Increasing(ind);
      hide CtxOk, CtxOf, Backward, LastLetter, Here, Gather, Increasing;
      BackwardStart(before, ind, vals);
      for ridx := |ind| downto 0
        invariant Backward(before, charTypes, ind, ridx, vals)
      {
        var cidx := ind[ridx];
        ghost var now := charTypes;
        BackwardView(before, now, ind, ridx + 1, vals);
        if charTypes[cidx] == EN {
          var firstStrongBc := FirstLetterBefore(ridx, ind, isoRun.sos);
          LastLetterPrefix(c.sos, Gather(now, ind), cls, ridx);
          if firstStrongBc == L {
            charTypes := charTypes[cidx := L];
            BackwardSet(before, now, ind, ridx, vals, L);
          } else {
            BackwardSkip(before, now, ind, ridx, vals);
          }
        } else {
          BackwardSkip(before, now, ind, ridx, vals);
        }
      }
      BackwardDone(before, charTypes, ind, vals);
    }

    /** W7 for every sequence. */
    method ResolveEn(isoRuns: seq<IsoSeq>, ghost env: Env)
      requires Ready(env, isoRuns)
      modifies this`charTypes
      ensures Passed(RuleW7, env, isoRuns, |isoRuns|, old(charTypes), charTypes)
    {
      PassedStart(RuleW7, env, isoRuns, charTypes);
      hide EnvOk, Passed, CtxOk, CtxOf, Increasing, InRange, IsRewrite, Apply, W1, W2, W3, W4, W5, W6, W7, N1, N2;
      for a := 0 to |isoRuns|
        invariant Passed(RuleW7, env, isoRuns, a, old(charTypes), charTypes)
      {
        PassedGivesCtx(RuleW7, env, isoRuns, a, old(charTypes), charTypes);
        ApplyIs(CtxOf(env, isoRuns[a]), Gather(charTypes, isoRuns[a].indices));
        ghost var now := charTypes;
        EnIn(isoRuns[a], env);
        PassedStep(RuleW7, env, isoRuns, a, old(charTypes), now, charTypes);
      }
    }

    /** `c` is the text chain of the positions `ind` of this context. */
    ghost predicate Placed(c: Ctx, ind: seq<nat>)
      reads this
    {
      && |levels| == |origCharTypes| == |charTypes|
      && (forall m :: 0 <= m < |ind| ==> ind[m] < |charTypes|)
      && Increasing(ind)
      && c.levels == Gather(levels, ind) && c.orig == Gather(origCharTypes, ind)
      && IsLetter(c.sos) && IsLetter(c.eos)
      && (forall m :: 0 <= m < |ind| && Removed(c.levels[m]) ==>
            IsRemovedClass(c.orig[m]) && IsRemovedClass(charTypes[ind[m]]))
    }

    lemma PlacedSized(c: Ctx, ind: seq<nat>)
      requires Placed(c, ind)
      ensures forall m :: 0 <= m < |ind| ==> ind[m] < |charTypes|
      ensures |Gather(charTypes, ind)| == |ind| == |c.levels| && IsLetter(c.sos) && IsLetter(c.eos)
    {
    }

    lemma PlacedAt(c: Ctx, ind: seq<nat>, m: nat)
      requires Placed(c, ind) && m < |ind|
      ensures ind[m] < |charTypes| == |levels|
      ensures (forall m :: 0 <= m < |ind| ==> ind[m] < |charTypes|) && |Gather(charTypes, ind)| == |ind| == |c.levels|
      ensures Gather(charTypes, ind)[m] == charTypes[ind[m]] && c.levels[m] == levels[ind[m]]
      ensures SkippedRemoved(c, Gather(charTypes, ind), m)
    {
    }

    /** `is_prior_context_left` */
    method IsPriorContextLeft(indexIdx: nat, ind: seq<nat>, sot: BidiClass, ghost c: Ctx) returns (r: bool)
      requires Placed(c, ind) && indexIdx <= |ind| && sot == c.sos
      ensures r <==> PriorDirection(c, Gather(charTypes, ind), indexIdx) == Some(Ltr)
    {
      ghost var cls := Gather(charTypes, ind);
      var m := indexIdx;
      PlacedSized(c, ind);
      hide PriorDirection, Gather, IsNeutral, CountsAsR, SkippedRemoved, Placed;
      DirectionAtEnds(c, cls);
      while m > 0
        invariant 0 <= m <= indexIdx
        invariant PriorDirection(c, cls, indexIdx) == PriorDirection(c, cls, m)
      {
        m := m - 1;
        PlacedAt(c, ind, m);
        PriorStep(c, cls, m);
        if charTypes[ind[m]] == L {
          return true;
        }
        if !Removed(levels[ind[m]]) && !IsNeutral(charTypes[ind[m]]) {
          return false;
        }
      }
      return sot == L;
    }

    /** `is_prior_context_right` */
    method IsPriorContextRight(indexIdx: nat, ind: seq<nat>, sot: BidiClass, ghost c: Ctx) returns (r: bool)
      requires Placed(c, ind) && indexIdx <= |ind| && sot == c.sos
      ensures r <==> PriorDirection(c, Gather(charTypes, ind), indexIdx) == Some(Rtl)
    {
      ghost var cls := Gather(charTypes, ind);
      var m := indexIdx;
      PlacedSized(c, ind);
      hide PriorDirection, Gather, IsNeutral, CountsAsR, SkippedRemoved, Placed;
      DirectionAtEnds(c, cls);
      while m > 0
        invariant 0 <= m <= indexIdx
        invariant PriorDirection(c, cls, indexIdx) == PriorDirection(c, cls, m)
      {
        m := m - 1;
        PlacedAt(c, ind, m);
        PriorStep(c, cls, m);
        if CountsAsR(charTypes[ind[m]]) {
          return true;
        }
        if !Removed(levels[ind[m]]) && !IsNeutral(charTypes[ind[m]]) {
          return false;
        }
      }
      return sot == R;
    }

    /** `is_following_context_left` */
    method IsFollowingContextLeft(indexIdx: nat, ind: seq<nat>, eot: BidiClass, ghost c: Ctx) returns (r: bool)
      requires Placed(c, ind) && indexIdx < |ind| && eot == c.eos
      ensures r <==> FollowingDirection(c, Gather(charTypes, ind), indexIdx + 1) == Some(Ltr)
    {
      ghost var cls := Gather(charTypes, ind);
      PlacedSized(c, ind);
      hide FollowingDirection, Gather, IsNeutral, CountsAsR, SkippedRemoved, Placed;
      DirectionAtEnds(c, cls);
      for m := indexIdx + 1 to |ind|
        invariant FollowingDirection(c, cls, indexIdx + 1) == FollowingDirection(c, cls, m)
      {
        PlacedAt(c, ind, m);
        FollowingStep(c, cls, m);
        if charTypes[ind[m]] == L {
          return true;
        }
        if !Removed(levels[ind[m]]) && !IsNeutral(charTypes[ind[m]]) {
          return false;
        }
      }
      return eot == L;
    }

    /** `is_following_context_right` */
    method IsFollowingContextRight(indexIdx: nat, ind: seq<nat>, eot: BidiClass, ghost c: Ctx) returns (r: bool)
      requires Placed(c, ind) && indexIdx < |ind| && eot == c.eos
      ensures r <==> FollowingDirection(c, Gather(charTypes, ind), indexIdx + 1) == Some(Rtl)
    {
      ghost var cls := Gather(charTypes, ind);
      PlacedSized(c, ind);
      hide FollowingDirection, Gather, IsNeutral, CountsAsR, SkippedRemoved, Placed;
      DirectionAtEnds(c, cls);
      for m := indexIdx + 1 to |ind|
        invariant FollowingDirection(c, cls, indexIdx + 1) == FollowingDirection(c, cls, m)
      {
        PlacedAt(c, ind, m);
        FollowingStep(c, cls, m);
        if CountsAsR(charTypes[ind[m]]) {
          return true;
        }
        if !Removed(levels[ind[m]]) && !IsNeutral(charTypes[ind[m]]) {
          return false;
        }
      }
      return eot == R;
    }

    // N0: the combining marks that follow the bracket at `from`, up to position `to`, take its class.
    method MarkCombining(from: nat, to: nat, ind: seq<nat>, bc: BidiClass, ghost c: Ctx)
      requires Placed(c, ind) && from < to <= |ind|
      modifies this`charTypes
      requires !IsRemovedClass(bc)
      ensures Placed(c, ind) && Marking(c, old(charTypes), charTypes, ind, from, to, bc)
    {
      ghost var before := charTypes;
      hide Marking, OnlyMarks, MarksFollow, Increasing;
      MarkingStart(c, before, ind, from, bc);
      for j := from + 1 to to
        invariant Placed(c, ind)
        invariant Marking(c, before, charTypes, ind, from, j, bc) && OnlyMarks(c, from, j)
      {
        var cidx := ind[j];
        ghost var now := charTypes;
        if origCharTypes[cidx] == NSM {
          charTypes := charTypes[cidx := bc];
        } else if !Removed(levels[cidx]) {
          MarkingStops(c, before, charTypes, ind, from, j, to, bc);
          return;
        }
        OnlyMarksGrows(c, from, j);
        MarkingStep(c, before, now, charTypes, ind, from, j, bc);
      }
    }

    /** `set_bracket_pair_bc` */
    method SetBracketPairBc(pair: Pair, ind: seq<nat>, direction: Direction, ghost c: Ctx)
      requires Placed(c, ind) && pair.opening < pair.closing < |ind|
      requires !Removed(c.levels[pair.opening]) && !Removed(c.levels[pair.closing])
      modifies this`charTypes
      ensures Placed(c, ind)
      ensures IsRewrite(old(charTypes), charTypes, ind, SetPair(c, Gather(old(charTypes), ind), pair, direction))
    {
      hide MarksFollow;
      var bc := if direction == Ltr then L else R;
      charTypes := charTypes[ind[pair.opening] := bc];
      charTypes := charTypes[ind[pair.closing] := bc];
      MarkCombining(pair.opening, pair.closing, ind, bc, c);
      MarkCombining(pair.closing, |ind|, ind, bc, c);
    }

    /** `resolve_one_pair` */
    method ResolveOnePair(pair: Pair, isoRun: IsoSeq, ghost c: Ctx)
      requires Placed(c, isoRun.indices) && pair.opening < pair.closing < |isoRun.indices|
      requires !Removed(c.levels[pair.opening]) && !Removed(c.levels[pair.closing])
      requires c.level == isoRun.level && c.sos == isoRun.sos
      modifies this`charTypes
      ensures Placed(c, isoRun.indices)
      ensures IsRewrite(old(charTypes), charTypes, isoRun.indices, ResolvePair(c, Gather(old(charTypes), isoRun.indices), pair))
    {
      hide SetPair;
      var ind := isoRun.indices;
      ghost var cls := Gather(charTypes, ind);
      var embeddingDirection := LevelDirection(isoRun.level);
      var oppositeDirection := embeddingDirection.Opposite();
      var strongTypeFound := false;
      for k := pair.opening + 1 to pair.closing
        invariant !HasDirection(cls, pair.opening + 1, k, embeddingDirection)
        invariant strongTypeFound <==> HasDirection(cls, pair.opening + 1, k, oppositeDirection)
        invariant charTypes == old(charTypes)
      {
        var direction := StrongDirection(charTypes[ind[k]]);
        if direction == Some(embeddingDirection) {
          assert StrongDirection(cls[k]) == Some(embeddingDirection);
          SetBracketPairBc(pair, ind, embeddingDirection, c);
          return;
        } else if direction == Some(oppositeDirection) {
          assert StrongDirection(cls[k]) == Some(oppositeDirection);
          strongTypeFound := true;
        }
      }
      if strongTypeFound {
        var left := IsPriorContextLeft(pair.opening, ind, isoRun.sos, c);
        var right := IsPriorContextRight(pair.opening, ind, isoRun.sos, c);
        if (oppositeDirection == Ltr && left) || (oppositeDirection == Rtl && right) {
          SetBracketPairBc(pair, ind, oppositeDirection, c);
        } else {
          SetBracketPairBc(pair, ind, embeddingDirection, c);
        }
      }
    }

    // The bracket scan of N0 over one sequence; false when the bracket stack overflows.
    method ScanBrackets(stack: BracketStack, ind: seq<nat>, paragraph: seq<ParaChar>, ghost c: Ctx) returns (ok: bool)
      requires stack.Valid() && stack.State() == PairState([], [])
      requires Fits(ind, |charTypes|, paragraph)
      requires c.chars == Gather(paragraph, ind)
      modifies stack, stack.closingBracket, stack.position
      ensures stack.Valid()
      ensures ok <==> !Overflows(c, Gather(charTypes, ind))
      ensures ok ==> Some(stack.State()) == PairScan(c, Gather(charTypes, ind), |ind|)
    {
      ghost var cls := Gather(charTypes, ind);
      for ridx := 0 to |ind|
        invariant stack.Valid()
        invariant Some(stack.State()) == PairScan(c, cls, ridx)
      {
        var cidx := ind[ridx];
        var entry := paragraph[cidx].bracket;
        if entry.Some? && charTypes[cidx] == ON {
          if entry.value.opens {
            var pushed := stack.Push(entry.value.paired, ridx);
            if !pushed {
              ScanStaysNone(c, cls, ridx + 1);
              return false;
            }
          } else {
            var _ := stack.SeekMatchingOpenBracket(paragraph[cidx].ch, ridx);
          }
        }
      }
      return true;
    }

    // N0 for the pairs of one sequence, in order of their opening brackets.
    method ResolvePairsIn(pairs: seq<Pair>, isoRun: IsoSeq, ghost c: Ctx)
      requires Placed(c, isoRun.indices) && c.level == isoRun.level && c.sos == isoRun.sos
      requires PairsIn(pairs, |isoRun.indices|)
      requires forall i :: 0 <= i < |pairs| ==> !Removed(c.levels[pairs[i].opening]) && !Removed(c.levels[pairs[i].closing])
      modifies this`charTypes
      ensures IsRewrite(old(charTypes), charTypes, isoRun.indices,
                        ResolvePairs(c, Gather(old(charTypes), isoRun.indices), pairs, |pairs|))
    {
      ghost var before := charTypes;
      var ind := isoRun.indices;
      ghost var cls := Gather(before, ind);
      hide ResolvePair, IsRewrite, PairsIn;
      NothingToRewrite(before, ind);
      for i := 0 to |pairs|
        invariant Placed(c, ind)
        invariant IsRewrite(before, charTypes, ind, ResolvePairs(c, cls, pairs, i))
      {
        ghost var now := charTypes;
        RewriteView(before, now, ind, ResolvePairs(c, cls, pairs, i));
        PairIn(pairs, |ind|, i);
        ResolveOnePair(pairs[i], isoRun, c);
        RewriteAgain(before, now, charTypes, ind, ResolvePairs(c, cls, pairs, i), ResolvePairs(c, cls, pairs, i + 1));
      }
    }

    // The pairs of one sequence in the order in which they are resolved; false when the bracket stack overflows.
    method FindPairs(stack: BracketStack, ind: seq<nat>, paragraph: seq<ParaChar>, ghost c: Ctx) returns (ok: bool)
      requires stack.Valid()
      requires Fits(ind, |charTypes|, paragraph)
      requires c.chars == Gather(paragraph, ind)
      modifies stack, stack.closingBracket, stack.position
      ensures stack.Valid()
      ensures ok <==> !Overflows(c, Gather(charTypes, ind))
      ensures ok ==> stack.pairs == PairsOf(c, Gather(charTypes, ind))
    {
      hide BracketPairs, PairsIn, Fits;
      stack.Clear();
      ok := ScanBrackets(stack, ind, paragraph, c);
      if ok {
        stack.pairs := SortPairs(stack.pairs);
      }
    }

    // N0 for one sequence; false when the bracket stack overflows.
    method PairedBracketsIn(stack: BracketStack, isoRun: IsoSeq, paragraph: seq<ParaChar>, ghost env: Env) returns (ok: bool)
      requires stack.Valid() && Here(env, isoRun) && paragraph == env.paragraph != []
      modifies this`charTypes, stack, stack.closingBracket, stack.position
      ensures stack.Valid()
      ensures ok <==> !Overflows(CtxOf(env, isoRun), Gather(old(charTypes), isoRun.indices))
      ensures ok ==> IsRewrite(old(charTypes), charTypes, isoRun.indices,
                               Apply(RuleN0, CtxOf(env, isoRun), Gather(old(charTypes), isoRun.indices)))
      ensures !ok ==> charTypes == old(charTypes)
    {
      ghost var c, cls := CtxOf(env, isoRun), Gather(charTypes, isoRun.indices);
      hide Apply, Overflows, PairsOf, IsRewrite;
      ok := FindPairs(stack, isoRun.indices, paragraph, c);
      if !ok {
        return;
      }
      N0IsResolvePairs(c, cls);
      PairsAreKept(c, cls, stack.pairs);
      if stack.pairs == [] {
        NothingToRewrite(charTypes, isoRun.indices);
        return;
      }
      ResolvePairsIn(stack.pairs, isoRun, c);
    }

    /** N0. The 64th open bracket of a sequence ends the rule for it and for all sequences after it. */
    method ResolvePairedBrackets(isoRuns: seq<IsoSeq>, paragraph: seq<ParaChar>, ghost env: Env)
      requires Ready(env, isoRuns) && paragraph == env.paragraph
      modifies this`charTypes
      ensures Passed(RuleN0, env, isoRuns, FirstOverflow(env, isoRuns, old(charTypes), 0), old(charTypes), charTypes)
    {
      ghost var before := charTypes;
      assert EnvOk(env, isoRuns, before) && EnvSized(env, isoRuns, before);
      hide EnvOk, Passed, FirstOverflow, Apply, CtxOk, CtxOf, Overflows, EnvSized, SequencesOk;
      if paragraph == [] {
        NoOverflowWithoutParagraph(env, isoRuns, before, 0);
        NothingToPair(env, isoRuns, before);
        return;
      }
      var stack := new BracketStack();
      PassedStart(RuleN0, env, isoRuns, charTypes);
      hide EnvOk, Passed, FirstOverflow, Apply, CtxOk, CtxOf, Overflows, IsRewrite, Increasing, InRange, BracketStack.Valid, Gather;
      for a := 0 to |isoRuns|
        invariant stack.Valid() && fresh(stack) && fresh(stack.closingBracket) && fresh(stack.position)
        invariant Passed(RuleN0, env, isoRuns, a, before, charTypes)
        invariant FirstOverflow(env, isoRuns, before, 0) == FirstOverflow(env, isoRuns, before, a)
      {
        PassedGivesCtx(RuleN0, env, isoRuns, a, before, charTypes);
        ghost var now := charTypes;
        var ok := PairedBracketsIn(stack, isoRuns[a], paragraph, env);
        OverflowTurn(env, isoRuns, before, a, ok);
        if !ok {
          return;
        }
        PassedStep(RuleN0, env, isoRuns, a, before, now, charTypes);
      }
      FirstOverflowIsFirst(env, isoRuns, before, |isoRuns|);
    }

    // N1
    method NeutralsByContextIn(isoRun: IsoSeq, ghost env: Env)
      requires Here(env, isoRun)
      modifies this`charTypes
      ensures IsRewrite(old(charTypes), charTypes, isoRun.indices, N1(CtxOf(env, isoRun), Gather(old(charTypes), isoRun.indices)))
    {
      ghost var before := charTypes;
      ghost var c, cls := CtxOf(env, isoRun), Gather(charTypes, isoRun.indices);
      var ind := isoRun.indices;
      ghost var vals := N1(c, cls);
      assert forall m :: 0 <= m < |ind| ==> vals[m] == N1At(c, cls, m);
      BackwardStart(before, ind, vals);
      for ridx := |ind| downto 0
        invariant Backward(before, charTypes, ind, ridx, vals)
        invariant Placed(c, ind)
      {
        ghost var now := charTypes;
        BackwardView(before, now, ind, ridx + 1, vals);
        BackwardSet(before, now, ind, ridx, vals, vals[ridx]);
        NeutralAt(ridx, ind, isoRun, c, cls);
      }
      BackwardDone(before, charTypes, ind, vals);
    }

    // N1 for one character.
    method NeutralAt(ridx: nat, ind: seq<nat>, isoRun: IsoSeq, ghost c: Ctx, ghost cls: seq<BidiClass>)
      requires Placed(c, ind) && ridx < |ind| == |cls| && CtxOk(c, cls)
      requires isoRun.sos == c.sos && isoRun.eos == c.eos
      requires forall m :: 0 <= m <= ridx ==> Gather(charTypes, ind)[m] == cls[m]
      requires forall m :: ridx < m < |ind| ==> Gather(charTypes, ind)[m] == N1(c, cls)[m]
      modifies this`charTypes
      ensures charTypes == old(charTypes)[ind[ridx] := N1At(c, cls, ridx)]
      ensures Placed(c, ind)
    {
      hide CtxOk;
      var cidx := ind[ridx];
      if !IsNeutral(charTypes[cidx]) {
        return;
      }
      N1InPlace(c, cls, Gather(charTypes, ind), ridx);
      NeutralIsKept(c, cls, ridx);
      var left := IsPriorContextLeft(ridx, ind, isoRun.sos, c);
      if left {
        left := IsFollowingContextLeft(ridx, ind, isoRun.eos, c);
      }
      if left {
        charTypes := charTypes[cidx := L];
        return;
      }
      var right := IsPriorContextRight(ridx, ind, isoRun.sos, c);
      if right {
        right := IsFollowingContextRight(ridx, ind, isoRun.eos, c);
      }
      if right {
        charTypes := charTypes[cidx := R];
      }
    }

    /** N1 for every sequence. */
    method ResolveNeutralsByContext(isoRuns: seq<IsoSeq>, ghost env: Env)
      requires Ready(env, isoRuns)
      modifies this`charTypes
      ensures Passed(RuleN1, env, isoRuns, |isoRuns|, old(charTypes), charTypes)
    {
      PassedStart(RuleN1, env, isoRuns, charTypes);
      hide EnvOk, Passed, CtxOk, CtxOf, Increasing, InRange, IsRewrite, Apply, W1, W2, W3, W4, W5, W6, W7, N1, N2;
      for a := 0 to |isoRuns|
        invariant Passed(RuleN1, env, isoRuns, a, old(charTypes), charTypes)
      {
        PassedGivesCtx(RuleN1, env, isoRuns, a, old(charTypes), charTypes);
        ApplyIs(CtxOf(env, isoRuns[a]), Gather(charTypes, isoRuns[a].indices));
        ghost var now := charTypes;
        NeutralsByContextIn(isoRuns[a], env);
        PassedStep(RuleN1, env, isoRuns, a, old(charTypes), now, charTypes);
      }
    }

    // N2
    method NeutralsByLevelIn(isoRun: IsoSeq, ghost env: Env)
      requires Here(env, isoRun)
      modifies this`charTypes
      ensures IsRewrite(old(charTypes), charTypes, isoRun.indices, N2(CtxOf(env, isoRun), Gather(old(charTypes), isoRun.indices)))
    {
      ghost var before := charTypes;
      ghost var c, cls := CtxOf(env, isoRun), Gather(charTypes, isoRun.indices);
      var ind := isoRun.indices;
      ghost var vals := N2(c, cls);
      BackwardStart(before, ind, vals);
      assert |cls| == |ind| && c.levels == Gather(levels, ind) && Increasing(ind);
      hide CtxOk, CtxOf, Backward, Here, Gather, Increasing;
      for ridx := |ind| downto 0
        invariant Backward(before, charTypes, ind, ridx, vals)
      {
        var cidx := ind[ridx];
        ghost var now := charTypes;
        BackwardView(before, now, ind, ridx + 1, vals);
        GatherAt(levels, ind, ridx);
        if IsNeutral(charTypes[cidx]) {
          charTypes := charTypes[cidx := LevelClass(levels[cidx])];
          BackwardSet(before, now, ind, ridx, vals, LevelClass(levels[cidx]));
        } else {
          BackwardSkip(before, now, ind, ridx, vals);
        }
      }
      BackwardDone(before, charTypes, ind, vals);
    }

    /** N2 for every sequence. */
    method ResolveNeutralsByLevel(isoRuns: seq<IsoSeq>, ghost env: Env)
      requires Ready(env, isoRuns)
      modifies this`charTypes
      ensures Passed(RuleN2, env, isoRuns, |isoRuns|, old(charTypes), charTypes)
    {
      PassedStart(RuleN2, env, isoRuns, charTypes);
      hide EnvOk, Passed, CtxOk, CtxOf, Increasing, InRange, IsRewrite, Apply, W1, W2, W3, W4, W5, W6, W7, N1, N2;
      for a := 0 to |isoRuns|
        invariant Passed(RuleN2, env, isoRuns, a, old(charTypes), charTypes)
      {
        PassedGivesCtx(RuleN2, env, isoRuns, a, old(charTypes), charTypes);
        ApplyIs(CtxOf(env, isoRuns[a]), Gather(charTypes, isoRuns[a].indices));
        ghost var now := charTypes;
        NeutralsByLevelIn(isoRuns[a], env);
        PassedStep(RuleN2, env, isoRuns, a, old(charTypes), now, charTypes);
      }
    }

    /** I1 and I2. Every level stays inside the signed byte that holds it. */
    method ResolveImplicitLevels()
      requires |levels| == |charTypes|
      requires forall p :: 0 <= p < |levels| ==> levels[p] <= MAX_DEPTH
      modifies this`levels
      ensures |levels| == |old(levels)|
      ensures forall p :: 0 <= p < |levels| ==>
                levels[p] == if Removed(old(levels)[p]) then NO_LEVEL
                             else old(levels)[p] + LevelRaise(old(levels)[p], charTypes[p])
    {
      for idx := 0 to |levels|
        invariant |levels| == |old(levels)|
        invariant forall p :: 0 <= p < idx ==>
                    levels[p] == if Removed(old(levels)[p]) then NO_LEVEL
                                 else old(levels)[p] + LevelRaise(old(levels)[p], charTypes[p])
        invariant forall p :: idx <= p < |levels| ==> levels[p] == old(levels)[p]
      {
        if Removed(levels[idx]) {
          continue;
        }
        match LevelDirection(levels[idx]) {
          case Ltr =>
            match charTypes[idx] {
              case R => levels := levels[idx := levels[idx] + 1];
              case AN | EN => levels := levels[idx := levels[idx] + 2];
              case _ =>
            }
          case Rtl =>
            match charTypes[idx] {
              case L | AN | EN => levels := levels[idx := levels[idx] + 1];
              case _ =>
            }
        }
      }
    }

    /** X1-X10. */
    method ResolveExplicit() returns (isoRuns: seq<IsoSeq>)
      requires Completes(MAX_DEPTH, baseLevel, charTypes) && charTypes == origCharTypes
      modifies this`charTypes, this`levels, this`runs
      ensures charTypes == Classes(MAX_DEPTH, baseLevel, origCharTypes)
      ensures levels == Levels(MAX_DEPTH, baseLevel, origCharTypes)
      ensures isoRuns == ExplicitSequences(baseLevel, origCharTypes)
    {
      LevelsInRange(baseLevel, charTypes);
      hide Completes, ClassAt;
      ExplicitEmbeddingLevels();
      DeleteFormatCharacters();
      IdentifyRuns();
      isoRuns := IdentifyIsolatingRunSequences();
    }

    /** W1-W7. */
    method ResolveWeak(isoRuns: seq<IsoSeq>, ghost env: Env)
      requires Ready(env, isoRuns)
      modifies this`charTypes
      ensures EnvSized(env, isoRuns, old(charTypes)) && AtStage(7, env, isoRuns, old(charTypes), charTypes)
      ensures Ready(env, isoRuns)
    {
      ghost var types := charTypes;
      StageZero(env, isoRuns, types);
      assert EnvSized(env, isoRuns, types);
      hide EnvOk, AtStage, Passed, EnvSized;
      ghost var now := charTypes;
      ResolveCombiningMarks(isoRuns, env);
      StageStep(0, RuleW1, env, isoRuns, types, now, charTypes);
      now := charTypes;
      ResolveEuropeanNumbers(isoRuns, env);
      StageStep(1, RuleW2, env, isoRuns, types, now, charTypes);
      now := charTypes;
      ResolveArabicLetters(isoRuns, env);
      StageStep(2, RuleW3, env, isoRuns, types, now, charTypes);
      now := charTypes;
      ResolveSeparators(isoRuns, env);
      StageStep(3, RuleW4, env, isoRuns, types, now, charTypes);
      now := charTypes;
      ResolveTerminators(isoRuns, env);
      StageStep(4, RuleW5, env, isoRuns, types, now, charTypes);
      now := charTypes;
      ResolveEsCsEt(isoRuns, env);
      StageStep(5, RuleW6, env, isoRuns, types, now, charTypes);
      now := charTypes;
      ResolveEn(isoRuns, env);
      StageStep(6, RuleW7, env, isoRuns, types, now, charTypes);
    }

    // N0 as a stage.
    method ResolveBracketStage(isoRuns: seq<IsoSeq>, paragraph: seq<ParaChar>, ghost env: Env, ghost types: seq<BidiClass>)
      requires Ready(env, isoRuns) && EnvOk(env, isoRuns, types) && paragraph == env.paragraph
      requires AtStage(7, env, isoRuns, types, charTypes)
      modifies this`charTypes
      ensures AtStage(8, env, isoRuns, types, charTypes)
      ensures Ready(env, isoRuns)
    {
      ghost var now := charTypes;
      hide AtStage, Passed, FirstOverflow, OverflowsAt, SequencesOk;
      ResolvePairedBrackets(isoRuns, paragraph, env);
      StageBrackets(env, isoRuns, types, now, charTypes);
    }

    /** N0-N2. */
    method ResolveNeutral(isoRuns: seq<IsoSeq>, paragraph: seq<ParaChar>, ghost env: Env, ghost types: seq<BidiClass>)
      requires Ready(env, isoRuns) && EnvOk(env, isoRuns, types) && paragraph == env.paragraph
      requires AtStage(7, env, isoRuns, types, charTypes)
      modifies this`charTypes
      ensures AtStage(10, env, isoRuns, types, charTypes)
      ensures Ready(env, isoRuns)
    {
      assert EnvSized(env, isoRuns, types);
      hide EnvOk, AtStage, Passed, EnvSized;
      ResolveBracketStage(isoRuns, paragraph, env, types);
      ghost var now := charTypes;
      ResolveNeutralsByContext(isoRuns, env);
      StageStep(8, RuleN1, env, isoRuns, types, now, charTypes);
      now := charTypes;
      ResolveNeutralsByLevel(isoRuns, env);
      StageStep(9, RuleN2, env, isoRuns, types, now, charTypes);
    }

    /** `resolve`. The only inputs refused are those on which the pop loop of X6a would run off the
        directional status stack. Nothing is assumed of what the context held before. */
    method Resolve(hint: Hint, paragraph: seq<ParaChar>)
      requires Readable(BaseLevelFor(hint, origCharTypes), origCharTypes, paragraph)
      modifies this`charTypes, this`levels, this`baseLevel, this`runs
      ensures baseLevel == BaseLevelFor(hint, origCharTypes)
      ensures IsResolution(baseLevel, origCharTypes, paragraph, charTypes, levels)
      ensures Resolved(baseLevel, origCharTypes, charTypes, levels) && HasLevels()
    {
      charTypes := origCharTypes;
      match hint {
        case HintLtr => baseLevel := 0;
        case HintRtl => baseLevel := 1;
        case HintAutoLtr => baseLevel := ParagraphLevel(charTypes, false, Ltr);
        case HintAutoRtl => baseLevel := ParagraphLevel(charTypes, false, Rtl);
      }
      ExplicitEnvOk(baseLevel, origCharTypes, paragraph);
      LevelsInRange(baseLevel, origCharTypes);
      var isoRuns := ResolveExplicit();
      ghost var types, env := charTypes, ExplicitEnv(baseLevel, origCharTypes, paragraph);
      assert 0 <= baseLevel <= 1;
      hide EnvOk, AtStage, Completes, Levels, Classes, ScanLevel, IsResolution, Resolved, BaseLevelFor, HasLevels;
      ResolveWeak(isoRuns, env);
      ResolveNeutral(isoRuns, paragraph, env, types);
      assert levels == env.levels;
      ResolveImplicitLevels();
      assert Raised(env.levels, charTypes, levels);
      ResolvedBy(baseLevel, origCharTypes, paragraph, charTypes, levels);
      ResolutionIsResolved(baseLevel, origCharTypes, paragraph, charTypes, levels);
      ResolvedHasLevels();
    }

    lemma ResolvedHasLevels()
      requires Resolved(baseLevel, origCharTypes, charTypes, levels) && 0 <= baseLevel <= 1
      ensures HasLevels()
    {
    }

    /** `resolve_paragraph`: BD1 for every character, then `resolve`. */
    method ResolveParagraph(paragraph: seq<ParaChar>, hint: Hint)
      requires Readable(BaseLevelFor(hint, ClassesOf(paragraph)), ClassesOf(paragraph), paragraph)
      modifies this
      ensures origCharTypes == ClassesOf(paragraph)
      ensures baseLevel == BaseLevelFor(hint, origCharTypes)
      ensures IsResolution(baseLevel, origCharTypes, paragraph, charTypes, levels)
      ensures Resolved(baseLevel, origCharTypes, charTypes, levels) && HasLevels()
    {
      origCharTypes := ClassesOf(paragraph);
      Resolve(hint, paragraph);
    }

    /** `set_char_types`: without characters, N0 finds no brackets. */
    method SetCharTypes(types: seq<BidiClass>, hint: Hint)
      requires Readable(BaseLevelFor(hint, types), types, [])
      modifies this
      ensures origCharTypes == types
      ensures baseLevel == BaseLevelFor(hint, types)
      ensures IsResolution(baseLevel, types, [], charTypes, levels)
      ensures Resolved(baseLevel, types, charTypes, levels) && HasLevels()
    {
      origCharTypes := types;
      Resolve(hint, []);
    }

    // ----- lines of the resolved paragraph -----

    /** What the fields hold once a paragraph has been resolved (`Resolved`), as far as lines need it. */
    ghost predicate HasLevels()
      reads this
    {
      && |levels| == |origCharTypes| && 0 <= baseLevel <= 1
      && forall p :: 0 <= p < |levels| ==>
           if Removed(levels[p]) then IsRemovedClass(origCharTypes[p]) else 0 <= levels[p] <= MAX_DEPTH + 1
    }

    /** L1 */
    method ResetWhitespaceLevels(start: nat, end: nat) returns (out: seq<Level>)
      requires HasLevels() && start <= end <= |levels|
      ensures Whitespace.IsL1(origCharTypes, levels, baseLevel, start, end, out)
      ensures Reorder.LineOk(out)
    {
      out := Whitespace.ResetWhitespaceLevels(origCharTypes, levels, baseLevel, start, end);
      Whitespace.L1KeepsLevels(origCharTypes, levels, baseLevel, start, end, out);
    }

    /** `runs`: the level runs of the whole paragraph. */
    method AllRuns() returns (iter: Lines.RunIter)
      ensures fresh(iter) && iter.Remaining() == Lines.RunsFrom(levels, 0, 0)
      ensures Lines.LineRuns(levels, 0, 0, iter.Remaining())
    {
      iter := new Lines.RunIter(levels, 0);
      Lines.RunsPartition(levels, 0, 0);
    }

    /** `line_runs`: the level runs of a line after L1, in logical order. */
    method LineRuns(start: nat, end: nat) returns (iter: Lines.RunIter)
      requires HasLevels() && start <= end <= |levels|
      ensures fresh(iter) && Whitespace.IsL1(origCharTypes, levels, baseLevel, start, end, iter.levels)
      ensures Lines.LineRuns(iter.levels, start, 0, iter.Remaining())
    {
      var lineLevels := ResetWhitespaceLevels(start, end);
      iter := new Lines.RunIter(lineLevels, start);
      Lines.RunsPartition(lineLevels, start, 0);
    }

    /** `reorder_line`: L1, then L2. */
    method ReorderLine(start: nat, end: nat) returns (lineLevels: seq<Level>, visual: seq<nat>)
      requires HasLevels() && start <= end <= |levels| && end <= Reorder.DELETED
      ensures Whitespace.IsL1(origCharTypes, levels, baseLevel, start, end, lineLevels) && Reorder.LineOk(lineLevels)
      ensures visual == Reorder.LineOrder(lineLevels, start)
    {
      lineLevels := ResetWhitespaceLevels(start, end);
      visual := Reorder.ReverseLevels(start, lineLevels);
    }

    /** `reordered_runs`: the runs of a line in visual order. The source panics when a position of the
        paragraph is no index into the levels of the line. */
    method ReorderedRuns(start: nat, end: nat) returns (runs: seq<Lines.ReorderedRun>)
      requires HasLevels() && start <= end <= |levels| && end <= Reorder.DELETED
      requires forall p :: start <= p < end && !Removed(levels[p]) ==> p < end - start
      ensures var lineLevels := Whitespace.L1(origCharTypes, levels, baseLevel, start, end);
              var order := Reorder.LineOrder(lineLevels, start);
              && (forall v :: 0 <= v < |order| ==> order[v] < |lineLevels|)
              && runs == Lines.PiecesFrom(order, Lines.WithLevel(Lines.LevelsAt(lineLevels, order)), 0)
    {
      var lineLevels, reordered := ReorderLine(start, end);
      Whitespace.L1IsUnique(origCharTypes, levels, baseLevel, start, end, lineLevels);
      Whitespace.L1KeepsRemoved(origCharTypes, levels, baseLevel, start, end, lineLevels);
      Lines.IndexedInRangeIff(lineLevels, start);
      runs := Lines.ReorderedPieces(lineLevels, reordered);
    }
  }
}
