/** Unfoldings of the specification functions that the resolver's loops step through. */
module ContextFacts {
  import opened Options
  import opened BidiTypes
  import opened Isolates
  import opened LevelStacks
  import opened Explicit
  import opened Runs
  import opened RunFacts

  lemma RunStarts(cap: nat, base: Level, types: seq<BidiClass>)
    requires 0 <= base <= 1
    ensures Run(cap, base, types, 0) == Some(Status([Entry(base, NoOverride, false)], 0, 0, 0))
  {
  }

  lemma RunContinues(cap: nat, base: Level, types: seq<BidiClass>, k: nat, s: Status)
    requires Completes(cap, base, types) && k < |types| && Run(cap, base, types, k) == Some(s)
    ensures s.stack != [] && base <= s.Top().level <= MAX_DEPTH
    ensures Step(cap, s, types[k], FsiIsRtl(types, k)) == Run(cap, base, types, k + 1)
    ensures Run(cap, base, types, k + 1).Some? && Run(cap, base, types, k + 1).value.stack != []
  {
    StackLevels(base, s.stack);
    hide Step, FsiIsRtl;
    assert Run(cap, base, types, k + 1).Some?;
  }

  lemma {:induction false} ScanDependsOnSuffix(a: seq<BidiClass>, b: seq<BidiClass>, k: nat, count: nat, respectPdi: bool, fallback: Direction)
    requires |a| == |b| && forall j :: k <= j < |a| ==> a[j] == b[j]
    ensures ScanLevel(a, k, count, respectPdi, fallback) == ScanLevel(b, k, count, respectPdi, fallback)
    decreases |a| - k
  {
    if k < |a| {
      var next := if IsIsoInit(a[k]) then count + 1 else if a[k] == PDI && count > 0 then count - 1 else count;
      ScanDependsOnSuffix(a, b, k + 1, next, respectPdi, fallback);
    }
  }

  lemma FsiSuffix(a: seq<BidiClass>, b: seq<BidiClass>, k: nat)
    requires |a| == |b| && forall j :: k <= j < |a| ==> b[j] == a[j]
    ensures FsiIsRtl(a, k) == FsiIsRtl(b, k)
  {
    ScanDependsOnSuffix(a, b, k + 1, 0, true, Ltr);
  }

  /** What one step writes: the level of the deciding entry and the class under its override. */
  ghost predicate Decided(base: Level, s: Status, next: Status, k: nat,
                          types: seq<BidiClass>, types': seq<BidiClass>, levels: seq<Level>, levels': seq<Level>)
  {
    && s.stack != [] && next.stack != [] && k < |types| == |levels|
    && var e := if types[k] == PDI then TopEntry(next.stack) else TopEntry(s.stack);
       if IsRemovedClass(types[k]) then levels' == levels && types' == types
       else if types[k] == B then levels' == levels[k := base] && types' == types
       else levels' == levels[k := e.level] && types' == types[k := ApplyOverride(e.ovr, types[k])]
  }

  /** X1-X8 have been applied to the first `k` characters. */
  ghost predicate ExplicitUpTo(cap: nat, base: Level, types: seq<BidiClass>, now: seq<BidiClass>, levels: seq<Level>, k: nat)
    requires Completes(cap, base, types)
  {
    && |now| == |types| == |levels| && k <= |types|
    && (forall j :: k <= j < |types| ==> now[j] == types[j])
    && (forall j :: 0 <= j < k ==> now[j] == ClassAt(cap, base, types, j))
    && (forall j :: 0 <= j < k && !IsRemovedClass(types[j]) ==> levels[j] == LevelAt(cap, base, types, j))
  }

  lemma ExplicitStart(cap: nat, base: Level, types: seq<BidiClass>, levels: seq<Level>)
    requires Completes(cap, base, types) && |levels| == |types|
    ensures ExplicitUpTo(cap, base, types, types, levels, 0)
  {
  }

  lemma ExplicitView(cap: nat, base: Level, types: seq<BidiClass>, now: seq<BidiClass>, levels: seq<Level>, k: nat)
    requires Completes(cap, base, types) && ExplicitUpTo(cap, base, types, now, levels, k) && k < |types|
    ensures now[k] == types[k] && FsiIsRtl(now, k) == FsiIsRtl(types, k)
  {
    FsiSuffix(types, now, k);
  }

  lemma ExplicitStep(cap: nat, base: Level, types: seq<BidiClass>, now: seq<BidiClass>, next: seq<BidiClass>,
                     levels: seq<Level>, levels': seq<Level>, k: nat, s: Status)
    requires Completes(cap, base, types) && k < |types| && Run(cap, base, types, k) == Some(s)
    requires ExplicitUpTo(cap, base, types, now, levels, k)
    requires Run(cap, base, types, k + 1).Some?
    requires Decided(base, s, Run(cap, base, types, k + 1).value, k, now, next, levels, levels')
    ensures ExplicitUpTo(cap, base, types, next, levels', k + 1)
  {
    hide Run, ApplyOverride, Completes;
    assert now[k] == types[k];
    assert next[k] == ClassAt(cap, base, types, k);
    assert !IsRemovedClass(types[k]) ==> levels'[k] == LevelAt(cap, base, types, k);
    hide ClassAt, LevelAt;
  }

  lemma ExplicitDone(cap: nat, base: Level, types: seq<BidiClass>, now: seq<BidiClass>, levels: seq<Level>)
    requires Completes(cap, base, types) && ExplicitUpTo(cap, base, types, now, levels, |types|)
    ensures now == Classes(cap, base, types) && |levels| == |now|
    ensures forall k :: 0 <= k < |levels| && !IsRemovedClass(types[k]) ==> levels[k] == LevelAt(cap, base, types, k)
  {
    hide Run, LevelAt, ClassAt;
  }

  lemma ConcatAssoc<T>(a: seq<T>, b: seq<T>, c: seq<T>)
    ensures a + (b + c) == (a + b) + c
    ensures a + [] == a && [] + c == c
  {
  }

  lemma RunsFromStep(types: seq<BidiClass>, levels: seq<Level>, start: nat)
    requires start < |types| == |levels|
    ensures start < SpanEnd(types, levels, start, NO_LEVEL) <= |types|
    ensures var end, level := SpanEnd(types, levels, start, NO_LEVEL), FirstLevel(levels, start);
            RunsFrom(types, levels, start) ==
            (if Removed(level) then [] else [LevelRun(start, end, end - start, 0, level, ON, ON)]) + RunsFrom(types, levels, end)
  {
    SpanEndIsSpan(types, levels, start, start, NO_LEVEL);
  }

  lemma OneMoreRun(types: seq<BidiClass>, levels: seq<Level>, start: nat, runs: seq<LevelRun>)
    requires start < |types| == |levels|
    ensures start < SpanEnd(types, levels, start, NO_LEVEL) <= |types|
    ensures var end, level := SpanEnd(types, levels, start, NO_LEVEL), FirstLevel(levels, start);
            runs + RunsFrom(types, levels, start)
            == (if Removed(level) then runs else runs + [LevelRun(start, end, end - start, 0, level, ON, ON)])
               + RunsFrom(types, levels, end)
  {
    RunsFromStep(types, levels, start);
    hide RunsFrom, SpanEnd, FirstLevel;
    var end, level := SpanEnd(types, levels, start, NO_LEVEL), FirstLevel(levels, start);
    if !Removed(level) {
      ConcatAssoc(runs, [LevelRun(start, end, end - start, 0, level, ON, ON)], RunsFrom(types, levels, end));
    }
  }

  lemma NoRunsYet(types: seq<BidiClass>, levels: seq<Level>)
    requires |types| == |levels|
    ensures [] + RunsFrom(types, levels, 0) == RunsFrom(types, levels, 0)
  {
    hide RunsFrom;
  }

  lemma RunsFromEnd(types: seq<BidiClass>, levels: seq<Level>)
    requires |types| == |levels|
    ensures RunsFrom(types, levels, |types|) == []
  {
  }

  /** A sequence whose sos, eos and indices are still to be filled in. */
  ghost function Draft(text: Text, members: seq<nat>): IsoSeq
    requires members != [] && MembersInText(text, members)
  {
    IsoSeq(members, LengthOf(text, members), text.runs[members[0]].level, ON, ON, [])
  }

  lemma DraftGrows(text: Text, members: seq<nat>, idx: nat)
    requires members != [] && MembersInText(text, members) && RunInText(text, idx)
    ensures MembersInText(text, members + [idx])
    ensures LengthOf(text, members + [idx]) == LengthOf(text, members) + text.runs[idx].len
  {
    assert (members + [idx])[..|members|] == members;
  }

  lemma AsSetGrows(s: seq<nat>, x: nat)
    ensures AsSet(s + [x]) == AsSet(s) + {x}
  {
  }

  lemma ChainStep(text: Text, taken: set<nat>, level: Level, idx: nat)
    requires TextOk(text) && idx < |text.runs|
    ensures RunInText(text, idx)
    ensures !(idx !in taken && text.runs[idx].level == level && StartsWithPdi(text, idx)) ==>
              Chain(text, taken, level, idx) == Chain(text, taken, level, idx + 1)
    ensures idx !in taken && text.runs[idx].level == level && StartsWithPdi(text, idx) && EndsInInitiator(text, idx) ==>
              Chain(text, taken, level, idx) == [idx] + Chain(text, taken, level, idx + 1)
    ensures idx !in taken && text.runs[idx].level == level && StartsWithPdi(text, idx) && !EndsInInitiator(text, idx) ==>
              Chain(text, taken, level, idx) == [idx]
  {
    assert RunInText(text, idx);
  }

  lemma ChainEnds(text: Text, taken: set<nat>, level: Level, idx: nat)
    requires TextOk(text) && idx >= |text.runs|
    ensures Chain(text, taken, level, idx) == []
  {
  }

  ghost predicate SequencesInText(text: Text, ss: seq<seq<nat>>) {
    forall a :: 0 <= a < |ss| ==> ss[a] != [] && MembersInText(text, ss[a])
  }

  ghost function Drafts(text: Text, ss: seq<seq<nat>>): seq<IsoSeq>
    requires SequencesInText(text, ss)
  {
    seq(|ss|, a requires 0 <= a < |ss| => Draft(text, ss[a]))
  }

  lemma NoDrafts(text: Text)
    ensures SequencesInText(text, []) && Drafts(text, []) == []
  {
  }

  lemma DraftsGrow(text: Text, ss: seq<seq<nat>>, s: seq<nat>)
    requires SequencesInText(text, ss) && s != [] && MembersInText(text, s)
    ensures SequencesInText(text, ss + [s])
    ensures Drafts(text, ss + [s]) == Drafts(text, ss) + [Draft(text, s)]
  {
  }

  lemma SequencesStep(text: Text, taken: set<nat>, k: nat)
    requires TextOk(text) && k < |text.runs|
    ensures Sequences(text, taken, k) ==
            if k in taken then Sequences(text, taken, k + 1)
            else [SequenceFrom(text, taken, k)] + Sequences(text, taken + AsSet(SequenceFrom(text, taken, k)), k + 1)
  {
  }

  lemma SequencesEnd(text: Text, taken: set<nat>, k: nat)
    requires TextOk(text) && k >= |text.runs|
    ensures Sequences(text, taken, k) == []
  {
  }

  lemma SingleDraft(text: Text, k: nat)
    requires TextOk(text) && k < |text.runs|
    ensures MembersInText(text, [k])
    ensures Draft(text, [k]) == IsoSeq([k], text.runs[k].len, text.runs[k].level, ON, ON, [])
  {
    assert RunInText(text, k);
    assert [k][..0] == [] && LengthOf(text, [k][..0]) == 0;
  }

  /** Marking a run that the look-ahead has passed does not change what it finds. */
  lemma {:induction false} ChainIgnoresStart(text: Text, taken: set<nat>, level: Level, k: nat, idx: nat)
    requires TextOk(text) && k < idx
    ensures Chain(text, taken + {k}, level, idx) == Chain(text, taken, level, idx)
    decreases |text.runs| - idx
  {
    if idx < |text.runs| {
      ChainIgnoresStart(text, taken, level, k, idx + 1);
    }
  }

  lemma AsSetHas(s: seq<nat>, x: nat)
    requires x in s
    ensures AsSet(s) + {x} == AsSet(s)
  {
  }

  lemma {:induction false} NoRunStartsAssigned(types: seq<BidiClass>, levels: seq<Level>, start: nat)
    requires start <= |types| == |levels|
    ensures forall k :: 0 <= k < |RunsFrom(types, levels, start)| ==> RunsFrom(types, levels, start)[k].seqId == 0
    decreases |types| - start
  {
    if start < |types| {
      RunsFromStep(types, levels, start);
      NoRunStartsAssigned(types, levels, SpanEnd(types, levels, start, NO_LEVEL));
    }
  }

  lemma NothingAssigned(types: seq<BidiClass>, levels: seq<Level>, base: Level)
    requires |types| == |levels|
    ensures forall k :: 0 <= k < |TextOf(types, levels, base).runs| ==> TextOf(types, levels, base).runs[k].seqId == 0
  {
    NoRunStartsAssigned(types, levels, 0);
  }
}
