/** X10: sos and eos of every isolating run sequence, from the levels on its two sides. */
module SequenceSides {
  import opened BidiTypes
  import opened Explicit
  import opened Runs
  import opened RunFacts
  import opened Chains
  import opened IsolatingRuns
  import opened BD13
  import opened Resolution

  /** `p` is the first position of the sequence that was not removed. */
  ghost predicate Begins(s: IsoSeq, levels: seq<Level>, p: nat) {
    && p in s.indices && p < |levels| && !Removed(levels[p])
    && forall q: nat :: q in s.indices && q < p && q < |levels| ==> Removed(levels[q])
  }

  /** `p` is the last position of the sequence that was not removed. */
  ghost predicate Ends(s: IsoSeq, levels: seq<Level>, p: nat) {
    && p in s.indices && p < |levels| && !Removed(levels[p])
    && forall q: nat :: q in s.indices && p < q < |levels| ==> Removed(levels[q])
  }

  lemma RunSides(types: seq<BidiClass>, levels: seq<Level>, base: Level, x: nat)
    requires |types| == |levels| && x < |TextOf(types, levels, base).runs|
    ensures var runs := TextOf(types, levels, base).runs;
            && runs[x].sor == LevelClass(MaxLevel(if x == 0 then base else runs[x - 1].level, runs[x].level))
            && runs[x].eor == LevelClass(MaxLevel(if x == |runs| - 1 then base else runs[x + 1].level, runs[x].level))
  {
    hide RunsFrom, LevelClass, MaxLevel;
  }

  lemma TileAt(text: Text, x: nat)
    requires Tiled(text, 0) && x < |text.runs|
    ensures |text.levels| == |text.types| && text.runs[x].start < text.runs[x].end <= |text.types|
    ensures x == 0 ==> text.runs[x].start == 0
    ensures x > 0 ==> text.runs[x - 1].end == text.runs[x].start
    ensures x < |text.runs| - 1 ==> text.runs[x + 1].start == text.runs[x].end
    ensures x == |text.runs| - 1 ==> AllRemoved(text.levels, text.runs[x].end)
    ensures !Removed(text.runs[x].level)
  {
    assert IsSpan(text.types, text.levels, text.runs[x].start, text.runs[x].end, text.runs[x].level);
    if x > 0 {
      var before := x - 1;
      assert text.runs[before].end == text.runs[before + 1].start;
    }
    hide IsSpan;
  }

  lemma KeptIn(text: Text, x: nat) returns (p: nat)
    requires Tiled(text, 0) && TextOk(text) && NoneEmpty(text.levels, text.runs) && x < |text.runs|
    ensures text.runs[x].start <= p < text.runs[x].end <= |text.levels| && !Removed(text.levels[p])
    ensures text.levels[p] == text.runs[x].level
  {
    assert HasKept(text.levels, text.runs[x].start, text.runs[x].end);
    p :| text.runs[x].start <= p < text.runs[x].end <= |text.levels| && !Removed(text.levels[p]);
    hide NoneEmpty, Tiled, TextOk;
    RunLevelAt(text, x, p);
  }

  /** The level before a run is that of the last character before its first one. */
  lemma LevelBefore(text: Text, base: Level, x: nat, p: nat)
    requires Tiled(text, 0) && TextOk(text) && NoneEmpty(text.levels, text.runs) && FirstKept(text, x, p)
    ensures p < |text.levels|
    ensures var w := PrevKept(text.levels, p);
            (if w < 0 then base else text.levels[w]) == if x == 0 then base else text.runs[x - 1].level
  {
    TileAt(text, x);
    var w := PrevKept(text.levels, p);
    if x > 0 {
      var k := KeptIn(text, x - 1);
      TileAt(text, x - 1);
      hide Tiled, NoneEmpty, TextOk, PrevKept;
      assert k <= w < text.runs[x].start;
      RunLevelAt(text, x - 1, w);
    }
  }

  lemma LevelAfter(text: Text, base: Level, x: nat, p: nat)
    requires Tiled(text, 0) && TextOk(text) && NoneEmpty(text.levels, text.runs) && LastKept(text, x, p)
    ensures p < |text.levels|
    ensures var n := NextKept(text.levels, p + 1);
            (if n == |text.levels| then base else text.levels[n]) == if x == |text.runs| - 1 then base else text.runs[x + 1].level
  {
    TileAt(text, x);
    var n := NextKept(text.levels, p + 1);
    if x < |text.runs| - 1 {
      var k := KeptIn(text, x + 1);
      TileAt(text, x + 1);
      hide Tiled, NoneEmpty, TextOk, NextKept;
      assert text.runs[x].end <= n <= k;
      RunLevelAt(text, x + 1, n);
    }
  }

  // ----- the first and the last run of a sequence -----

  lemma InRun(text: Text, members: seq<nat>, m: nat, p: nat)
    requires MembersInText(text, members) && m < |members| && text.runs[members[m]].start <= p < text.runs[members[m]].end
    ensures p in IndicesOf(text, members)
  {
    InIndices(text, members, p);
    hide IndicesOf;
  }

  lemma RunOfIndex(text: Text, members: seq<nat>, p: nat) returns (m: nat)
    requires MembersInText(text, members) && p in IndicesOf(text, members)
    ensures m < |members| && members[m] < |text.runs| && text.runs[members[m]].start <= p < text.runs[members[m]].end <= |text.types|
  {
    InIndices(text, members, p);
    hide IndicesOf;
    m :| m < |members| && text.runs[members[m]].start <= p < text.runs[members[m]].end;
  }

  lemma InOrderOfRuns(text: Text, members: seq<nat>, m: nat, n: nat)
    requires Tiled(text, 0) && TextOk(text) && JoinsOk(text, members) && m < n < |members|
    ensures members[m] < members[n] < |text.runs| && text.runs[members[m]].end <= text.runs[members[n]].start
  {
    hide EndsInInitiator, StartsWithPdi, Tiled;
    assert members[m] < members[n];
    RunsOrdered(text, 0, members[m], members[n]);
  }

  lemma BeginsInFirstRun(text: Text, base: Level, members: seq<nat>, p: nat)
    requires Tiled(text, 0) && TextOk(text) && NoneEmpty(text.levels, text.runs) && JoinsOk(text, members)
    requires members != [] && MembersInText(text, members) && Begins(BuildSequence(text, base, members), text.levels, p)
    ensures FirstKept(text, members[0], p)
  {
    var x := members[0];
    assert RunInText(text, x);
    var k := KeptIn(text, x);
    InRun(text, members, 0, k);
    var m := RunOfIndex(text, members, p);
    assert p <= k;
    if m > 0 {
      InOrderOfRuns(text, members, 0, m);
    }
    hide Tiled, TextOk, NoneEmpty, JoinsOk, IndicesOf;
    forall q | text.runs[x].start <= q < p ensures Removed(text.levels[q]) {
      InRun(text, members, 0, q);
    }
  }

  lemma EndsInLastRun(text: Text, base: Level, members: seq<nat>, p: nat)
    requires Tiled(text, 0) && TextOk(text) && NoneEmpty(text.levels, text.runs) && JoinsOk(text, members)
    requires members != [] && MembersInText(text, members) && Ends(BuildSequence(text, base, members), text.levels, p)
    ensures LastKept(text, members[|members| - 1], p)
  {
    var x := members[|members| - 1];
    assert RunInText(text, x);
    var k := KeptIn(text, x);
    InRun(text, members, |members| - 1, k);
    var m := RunOfIndex(text, members, p);
    assert k <= p;
    if m < |members| - 1 {
      InOrderOfRuns(text, members, m, |members| - 1);
    }
    hide Tiled, TextOk, NoneEmpty, JoinsOk, IndicesOf;
    forall q | p < q < text.runs[x].end ensures Removed(text.levels[q]) {
      InRun(text, members, |members| - 1, q);
    }
  }

  /** X9 has removed the characters it should. */
  ghost predicate RemovedByClass(types: seq<BidiClass>, levels: seq<Level>) {
    |types| == |levels| && forall k: nat :: k < |types| ==> (Removed(levels[k]) <==> IsRemovedClass(types[k]))
  }

  lemma EndsInInitiatorIff(text: Text, x: nat, q: nat)
    requires Tiled(text, 0) && TextOk(text) && LastKept(text, x, q) && RemovedByClass(text.types, text.levels)
    ensures RunInText(text, x) && q < |text.types|
    ensures EndsInInitiator(text, x) <==> IsIsoInit(text.types[q])
  {
    LastInRun(text, x, q);
    assert IsSpan(text.types, text.levels, text.runs[x].start, text.runs[x].end, text.runs[x].level);
    hide Tiled;
  }

  // ----- sos and eos -----

  /** R when the higher of the two levels is odd, else L. */
  function Side(level: Level, beside: Level): BidiClass {
    if (if level < beside then beside else level) % 2 == 1 then R else L
  }

  lemma SideIs(level: Level, beside: Level)
    requires 0 <= level
    ensures LevelClass(MaxLevel(beside, level)) == Side(level, beside)
  {
  }

  lemma BuiltSos(text: Text, types: seq<BidiClass>, levels: seq<Level>, base: Level, members: seq<nat>, p: nat)
    requires |types| == |levels| && text == TextOf(types, levels, base) && text.types == types && text.levels == levels
    requires Tiled(text, 0) && TextOk(text) && NoneEmpty(text.levels, text.runs) && JoinsOk(text, members)
    requires members != [] && MembersInText(text, members) && Begins(BuildSequence(text, base, members), levels, p)
    ensures var s, w := BuildSequence(text, base, members), PrevKept(levels, p);
            0 <= s.level ==> s.sos == Side(s.level, if w < 0 then base else levels[w])
  {
    assert RunInText(text, members[0]);
    var level := text.runs[members[0]].level;
    BeginsInFirstRun(text, base, members, p);
    hide TextOf, Tiled, TextOk, NoneEmpty, JoinsOk, MembersInText, IndicesOf, LengthOf, EosOf, Begins, PrevKept, LevelClass, MaxLevel, Side;
    LevelBefore(text, base, members[0], p);
    RunSides(types, levels, base, members[0]);
    var w := PrevKept(levels, p);
    if 0 <= level {
      SideIs(level, if w < 0 then base else levels[w]);
    }
  }

  lemma BuiltEos(text: Text, types: seq<BidiClass>, levels: seq<Level>, base: Level, members: seq<nat>, q: nat)
    requires RemovedByClass(types, levels) && text == TextOf(types, levels, base) && text.types == types && text.levels == levels
    requires Tiled(text, 0) && TextOk(text) && NoneEmpty(text.levels, text.runs) && JoinsOk(text, members)
    requires members != [] && MembersInText(text, members) && Ends(BuildSequence(text, base, members), levels, q)
    ensures var s, n := BuildSequence(text, base, members), NextKept(levels, q + 1);
            0 <= s.level ==> s.eos == Side(s.level, if IsIsoInit(types[q]) || n == |levels| then base else levels[n])
  {
    var last := members[|members| - 1];
    assert RunInText(text, last);
    var level := text.runs[last].level;
    SameLevels(text, members);
    EndsInLastRun(text, base, members, q);
    EndsInInitiatorIff(text, last, q);
    hide TextOf, Tiled, TextOk, NoneEmpty, JoinsOk, MembersInText, IndicesOf, LengthOf, Ends, NextKept, LevelClass, MaxLevel, Side,
         EndsInInitiator, IsIsoInit;
    LevelAfter(text, base, last, q);
    RunSides(types, levels, base, last);
    var n := NextKept(levels, q + 1);
    if 0 <= level {
      SideIs(level, if n == |levels| then base else levels[n]);
      SideIs(level, base);
    }
  }

  lemma SameLevels(text: Text, members: seq<nat>)
    requires TextOk(text) && JoinsOk(text, members)
    ensures members != [] && members[0] < |text.runs| && members[|members| - 1] < |text.runs|
    ensures text.runs[members[|members| - 1]].level == text.runs[members[0]].level
  {
  }

  lemma BuiltFrom(types: seq<BidiClass>, levels: seq<Level>, base: Level, a: nat) returns (members: seq<nat>)
    requires |types| == |levels| && a < |SequencesOfText(types, levels, base)|
    ensures var text := TextOf(types, levels, base);
            && TextOk(text) && JoinsOk(text, members) && members != [] && MembersInText(text, members)
            && SequencesOfText(types, levels, base)[a] == BuildSequence(text, base, members)
  {
    var text := TextOf(types, levels, base);
    TextOfIsTiled(types, levels, base);
    SequencesPartition(text, {}, 0);
    SequencesCoverText(text, base, Sequences(text, {}, 0));
    members := Sequences(text, {}, 0)[a];
    hide Sequences, SequencesOk, Covers, Tiled, TextOf, TextOk, MembersInText, LengthOf, IndicesOf, EosOf, JoinsOk, Unassigned, Shared;
  }

  /** X10: sos is R exactly when the higher of the level of the sequence and of the level before it is odd,
      eos with the level behind it. Before and behind the text, and behind an isolate initiator that ends the
      sequence, that is the base level. */
  lemma SidesFromLevels(types: seq<BidiClass>, levels: seq<Level>, base: Level, a: nat, p: nat, q: nat)
    requires RemovedByClass(types, levels) && a < |SequencesOfText(types, levels, base)|
    requires var s := SequencesOfText(types, levels, base)[a]; 0 <= s.level && Begins(s, levels, p) && Ends(s, levels, q)
    ensures var s, w, n := SequencesOfText(types, levels, base)[a], PrevKept(levels, p), NextKept(levels, q + 1);
            && s.level == levels[p] == levels[q]
            && s.sos == Side(s.level, if w < 0 then base else levels[w])
            && s.eos == Side(s.level, if IsIsoInit(types[q]) || n == |levels| then base else levels[n])
  {
    CutIntoRuns(types, levels, base);
    var members := BuiltFrom(types, levels, base, a);
    assert SequenceOk(SequencesOfText(types, levels, base)[a], levels);
    var text := TextOf(types, levels, base);
    var s := BuildSequence(text, base, members);
    assert levels[p] == s.level && levels[q] == s.level by {
      LevelInSequence(s, levels, p);
      LevelInSequence(s, levels, q);
    }
    hide *;
    BuiltSos(text, types, levels, base, members, p);
    BuiltEos(text, types, levels, base, members, q);
  }

  lemma LevelInSequence(s: IsoSeq, levels: seq<Level>, p: nat)
    requires SequenceOk(s, levels) && p in s.indices && p < |levels| && !Removed(levels[p])
    ensures levels[p] == s.level
  {
    var m :| 0 <= m < |s.indices| && s.indices[m] == p;
  }

  lemma {:induction false} FirstOf(s: IsoSeq, levels: seq<Level>, m: nat) returns (p: nat)
    requires SequenceOk(s, levels) && m < |s.indices| && !Removed(levels[s.indices[m]])
    ensures Begins(s, levels, p)
    decreases m
  {
    if n: nat :| n < m && !Removed(levels[s.indices[n]]) {
      p := FirstOf(s, levels, n);
    } else {
      p := s.indices[m];
    }
  }

  lemma {:induction false} LastOf(s: IsoSeq, levels: seq<Level>, m: nat) returns (p: nat)
    requires SequenceOk(s, levels) && m < |s.indices| && !Removed(levels[s.indices[m]])
    ensures Ends(s, levels, p)
    decreases |s.indices| - m
  {
    if n: nat :| m < n < |s.indices| && !Removed(levels[s.indices[n]]) {
      p := LastOf(s, levels, n);
    } else {
      p := s.indices[m];
    }
  }

  /** Every sequence has a character that was not removed, and so a first and a last one. */
  lemma HasEnds(types: seq<BidiClass>, levels: seq<Level>, base: Level, a: nat) returns (p: nat, q: nat)
    requires |types| == |levels| && a < |SequencesOfText(types, levels, base)|
    ensures var s := SequencesOfText(types, levels, base)[a]; Begins(s, levels, p) && Ends(s, levels, q)
  {
    CutIntoRuns(types, levels, base);
    var members := BuiltFrom(types, levels, base, a);
    var text, s := TextOf(types, levels, base), SequencesOfText(types, levels, base)[a];
    assert SequenceOk(s, levels) && RunInText(text, members[0]) && s.indices == IndicesOf(text, members);
    hide *;
    var k := KeptIn(text, members[0]);
    InRun(text, members, 0, k);
    var m: nat :| m < |s.indices| && s.indices[m] == k;
    p := FirstOf(s, levels, m);
    q := LastOf(s, levels, m);
  }

  lemma RemovedAfterX9(base: Level, types: seq<BidiClass>)
    requires Completes(MAX_DEPTH, base, types)
    ensures RemovedByClass(Classes(MAX_DEPTH, base, types), Levels(MAX_DEPTH, base, types))
    ensures |Levels(MAX_DEPTH, base, types)| == |types| && 0 <= base
    ensures forall k :: 0 <= k < |types| ==> Removed(Levels(MAX_DEPTH, base, types)[k]) || 0 <= Levels(MAX_DEPTH, base, types)[k]
  {
    LevelsInRange(base, types);
    hide Levels, Classes, Run;
  }

  /** The same of the sequences the source builds. */
  lemma SidesInText(base: Level, types: seq<BidiClass>, a: nat) returns (p: nat, q: nat)
    requires Completes(MAX_DEPTH, base, types) && a < |ExplicitSequences(base, types)|
    ensures var s, levels, classes := ExplicitSequences(base, types)[a], Levels(MAX_DEPTH, base, types), Classes(MAX_DEPTH, base, types);
            && |levels| == |classes| && Begins(s, levels, p) && Ends(s, levels, q)
            && p < |levels| && q < |levels|
            && var w, n := PrevKept(levels, p), NextKept(levels, q + 1);
               && s.level == levels[p] == levels[q]
               && s.sos == Side(s.level, if w < 0 then base else levels[w])
               && s.eos == Side(s.level, if IsIsoInit(classes[q]) || n == |levels| then base else levels[n])
  {
    var levels, classes := Levels(MAX_DEPTH, base, types), Classes(MAX_DEPTH, base, types);
    RemovedAfterX9(base, types);
    SourceSequences(base, types);
    hide Levels, Classes, ExplicitSequences, SequencesOfText, PrevKept, NextKept, Side;
    p, q := HasEnds(classes, levels, base, a);
    KeptLevel(SequencesOfText(classes, levels, base), levels, a, p);
    SidesFromLevels(classes, levels, base, a, p, q);
  }

  lemma SourceSequences(base: Level, types: seq<BidiClass>)
    requires Completes(MAX_DEPTH, base, types)
    ensures |Classes(MAX_DEPTH, base, types)| == |Levels(MAX_DEPTH, base, types)|
    ensures ExplicitSequences(base, types) == SequencesOfText(Classes(MAX_DEPTH, base, types), Levels(MAX_DEPTH, base, types), base)
  {
    hide SequencesOfText;
  }

  lemma KeptLevel(seqs: seq<IsoSeq>, levels: seq<Level>, a: nat, p: nat)
    requires SequencesOk(seqs, levels) && a < |seqs| && Begins(seqs[a], levels, p)
    ensures p < |levels| && !Removed(levels[p]) && seqs[a].level == levels[p]
  {
    assert SequenceOk(seqs[a], levels);
    LevelInSequence(seqs[a], levels, p);
  }
}
