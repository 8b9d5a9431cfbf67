/** When exactly the isolating run sequences the source builds are those of BD13. */
module BD13 {
  import opened Options
  import opened BidiTypes
  import opened Isolates
  import opened LevelStacks
  import opened Explicit
  import opened ExplicitFacts
  import opened IsolateLevels
  import opened Runs
  import opened RunFacts
  import opened Chains
  import opened IsolatingRuns

  // ----- texts on which it does not -----

  /** Where the source leaves BD13 a run ends. */
  lemma BreakerIsLast(base: Level, types: seq<BidiClass>, text: Text, i: nat) returns (a: nat)
    requires 0 <= base <= 1 && IsTextOf(base, types, text)
    requires i < |types| == |text.types| == |text.levels| && Breaks(types, text.types, text.levels, i)
    ensures LastKept(text, a, i)
  {
    var n := NextKept(text.levels, i + 1);
    assert IsIsoInit(types[i]) && n < |types| && (text.types[i] != types[i] ==> text.levels[n] != text.levels[i]);
    hide *;
    KeptAt(base, types, text, i);
    InitiatorIsKept(types[i]);
    a := RunIn(base, types, text, i);
    NextIsKept(text.levels, i, n);
    forall q: nat | i < q < text.runs[a].end ensures Removed(text.levels[q]) {
      if !Removed(text.levels[q]) {
        RunLevelAt(text, a, i);
        if text.types[i] == types[i] {
          InitiatorIsLast(text, a, i);
        } else {
          NextKeptUpTo(text.levels, i, q);
          RunLevelAt(text, a, n);
        }
      }
    }
    IsLast(text, a, i);
  }

  lemma RunIn(base: Level, types: seq<BidiClass>, text: Text, i: nat) returns (a: nat)
    requires 0 <= base <= 1 && IsTextOf(base, types, text) && i < |types| == |text.types| == |text.levels|
    requires !Removed(text.levels[i])
    ensures a < |text.runs| && text.runs[a].start <= i < text.runs[a].end <= |types|
    ensures Tiled(text, 0) && TextOk(text)
  {
    assert Tiled(text, 0) && TextOk(text);
    hide Tiled, IsTextOf;
    a := RunAt(text, i);
    assert RunInText(text, a);
  }

  lemma NextIsKept(levels: seq<Level>, i: nat, n: nat)
    requires i < |levels| && n == NextKept(levels, i + 1) && n < |levels|
    ensures i < n && !Removed(levels[n])
  {
  }

  lemma InitiatorIsLast(text: Text, a: nat, i: nat)
    requires Tiled(text, 0) && a < |text.runs| && text.runs[a].start <= i < text.runs[a].end <= |text.types| == |text.levels|
    requires IsIsoInit(text.types[i]) && !Removed(text.levels[i])
    ensures i == text.runs[a].end - 1
  {
    assert IsSpan(text.types, text.levels, text.runs[a].start, text.runs[a].end, text.runs[a].level);
    hide Tiled;
  }

  lemma IsLast(text: Text, a: nat, i: nat)
    requires a < |text.runs| && text.runs[a].start <= i < text.runs[a].end <= |text.types| == |text.levels|
    requires !Removed(text.levels[i]) && forall q: nat :: i < q < text.runs[a].end ==> Removed(text.levels[q])
    ensures LastKept(text, a, i)
  {
  }

  /** An initiator that was not overridden, with something else than a PDI right after it in its level run:
      the source does not go on there. */
  lemma SplitsLevelRun(base: Level, types: seq<BidiClass>, text: Text, s: seq<nat>, m: nat, i: nat)
    requires 0 <= base <= 1 && IsTextOf(base, types, text) && TextOk(text) && JoinsOk(text, s) && m < |s|
    requires i < |types| == |text.types| == |text.levels| && LastKept(text, s[m], i)
    requires var n := NextKept(text.levels, i + 1); n < |types| && text.levels[n] == text.levels[i] && types[n] != PDI
    ensures !ContinuesAsBD13(types, text, s, m)
  {
    var n := NextKept(text.levels, i + 1);
    hide *;
    if ContinuesAsBD13(types, text, s, m) {
      var b := InRunGoesOn(types, text, s, m, i, n);
      var p := JoinBegins(base, types, text, s, m);
      FirstIsFirst(text, b, p, n);
      KeptAt(base, types, text, n);
      ControlIsOriginal(base, types, n);
      PdiIsKept();
    }
  }

  lemma InRunGoesOn(types: seq<BidiClass>, text: Text, s: seq<nat>, m: nat, i: nat, n: nat) returns (b: nat)
    requires |types| == |text.types| == |text.levels| && m < |s| && LastKept(text, s[m], i) && i < |types|
    requires n == NextKept(text.levels, i + 1) && n < |types| && text.levels[n] == text.levels[i]
    requires ContinuesAsBD13(types, text, s, m)
    ensures m + 1 < |s| && b == s[m + 1] && FirstKept(text, b, n)
  {
    var k: nat :| LastKept(text, s[m], k) && GoesOn(types, text, k, if m + 1 < |s| then Some(s[m + 1]) else None);
    LastIsLast(text, s[m], i, k);
    hide LastKept, FirstKept, Joins;
    b := if m + 1 < |s| then s[m + 1] else 0;
  }

  lemma JoinBegins(base: Level, types: seq<BidiClass>, text: Text, s: seq<nat>, m: nat) returns (p: nat)
    requires 0 <= base <= 1 && IsTextOf(base, types, text) && TextOk(text) && JoinsOk(text, s) && m + 1 < |s|
    ensures FirstKept(text, s[m + 1], p) && p < |text.types| && text.types[p] == PDI
  {
    assert Tiled(text, 0);
    var x := s[m + 1];
    assert RunInText(text, x) && StartsWithPdi(text, x);
    hide IsTextOf, Tiled, TextOk, JoinsOk;
    p := SignificantAt(text.types, text.levels, text.runs[x].start, text.runs[x].end);
  }

  /** A matched initiator at the end of its level run that an override has turned into a letter: the source
      ends the sequence there. */
  lemma MissesJoin(base: Level, types: seq<BidiClass>, text: Text, s: seq<nat>, m: nat, i: nat, j: nat, n: nat)
    requires 0 <= base <= 1 && SeparatorOnlyLast(types) && IsTextOf(base, types, text)
    requires TextOk(text) && JoinsOk(text, s) && m < |s|
    requires i < |types| == |text.types| == |text.levels| && LastKept(text, s[m], i) && text.types[i] != types[i]
    requires EndsLevelRun(text.levels, i) && i < n < |types| && !Removed(text.levels[n]) && text.levels[n] != text.levels[i]
    requires Matches(types, i, j) && n <= j < |types| && types[j] == PDI && OpenAt(types, i, j)
    ensures !ContinuesAsBD13(types, text, s, m)
  {
    hide *;
    LastOfOverridden(base, types, text, s, m, i);
    KeptAt(base, types, text, i);
    KeptAt(base, types, text, j);
    MatchedLikeInitiator(base, types, i, j);
    MatchBeginsLevelRun(base, types, text, i, j, n);
    EndsWithoutJoin(types, text, s, m, i, j);
  }

  lemma LastOfOverridden(base: Level, types: seq<BidiClass>, text: Text, s: seq<nat>, m: nat, i: nat)
    requires 0 <= base <= 1 && IsTextOf(base, types, text) && TextOk(text) && JoinsOk(text, s) && m < |s|
    requires i < |types| == |text.types| == |text.levels| && LastKept(text, s[m], i) && text.types[i] != types[i]
    ensures m + 1 == |s|
  {
    hide *;
    EndOfRun(base, types, text, s[m], i);
    LastInRun(text, s[m], i);
    LastOfJoined(text, s, m);
  }

  lemma LastOfJoined(text: Text, s: seq<nat>, m: nat)
    requires TextOk(text) && JoinsOk(text, s) && m < |s| && s[m] < |text.runs| && !EndsInInitiator(text, s[m])
    ensures m + 1 == |s|
  {
    hide EndsInInitiator, StartsWithPdi;
  }

  lemma EndsWithoutJoin(types: seq<BidiClass>, text: Text, s: seq<nat>, m: nat, i: nat, j: nat)
    requires |types| == |text.types| == |text.levels| && m + 1 == |s| && LastKept(text, s[m], i) && i < |types|
    requires EndsLevelRun(text.levels, i) && Matches(types, i, j) && BeginsLevelRun(text.levels, j)
    ensures !ContinuesAsBD13(types, text, s, m)
  {
    assert Joins(types, text.levels, i, j) && !GoesOn(types, text, i, None);
    hide *;
    forall k: nat | LastKept(text, s[m], k) ensures k == i {
      LastIsLast(text, s[m], i, k);
    }
    StopsOnly(types, text, s, m, i);
  }

  lemma StopsOnly(types: seq<BidiClass>, text: Text, s: seq<nat>, m: nat, i: nat)
    requires i < |types| == |text.types| == |text.levels| && m + 1 == |s| && !GoesOn(types, text, i, None)
    requires forall k: nat :: LastKept(text, s[m], k) ==> k == i
    ensures !ContinuesAsBD13(types, text, s, m)
  {
    hide GoesOn, LastKept;
  }

  lemma OverriddenBreaks(types: seq<BidiClass>, classes: seq<BidiClass>, levels: seq<Level>, i: nat) returns (n: nat, j: nat)
    requires i < |types| == |classes| == |levels| && Breaks(types, classes, levels, i) && classes[i] != types[i]
    ensures Matches(types, i, j) && OpenAt(types, i, j) && i < j < |types| && types[j] == PDI && EndsLevelRun(levels, i)
    ensures n == NextKept(levels, i + 1) && i < n < |types| && !Removed(levels[n]) && levels[n] != levels[i]
  {
    n := NextKept(levels, i + 1);
    j :| Matches(types, i, j);
    hide Depth;
  }

  lemma BreaksBD13(base: Level, types: seq<BidiClass>, text: Text, s: seq<nat>, m: nat, i: nat)
    requires 0 <= base <= 1 && SeparatorOnlyLast(types) && IsTextOf(base, types, text)
    requires TextOk(text) && JoinsOk(text, s) && m < |s|
    requires i < |types| == |text.types| == |text.levels| && LastKept(text, s[m], i) && Breaks(types, text.types, text.levels, i)
    ensures !IsBD13(types, text, s)
  {
    if text.types[i] == types[i] {
      var n := NextKept(text.levels, i + 1);
      assert n < |types| && text.levels[n] == text.levels[i] && types[n] != PDI;
      hide *;
      SplitsLevelRun(base, types, text, s, m, i);
      NotBD13(types, text, s, m);
    } else {
      hide *;
      var n, j := OverriddenBreaks(types, text.types, text.levels, i);
      KeptAt(base, types, text, j);
      PdiIsKept();
      NextKeptUpTo(text.levels, i, j);
      MissesJoin(base, types, text, s, m, i, j, n);
      NotBD13(types, text, s, m);
    }
  }

  lemma NotBD13(types: seq<BidiClass>, text: Text, s: seq<nat>, m: nat)
    requires |types| == |text.types| == |text.levels| && m < |s| && !ContinuesAsBD13(types, text, s, m)
    ensures !IsBD13(types, text, s)
  {
    hide ContinuesAsBD13;
  }

  lemma BrokenSequence(base: Level, types: seq<BidiClass>, text: Text, i: nat) returns (b: nat)
    requires 0 <= base <= 1 && SeparatorOnlyLast(types) && IsTextOf(base, types, text) && TextOk(text)
    requires i < |types| == |text.types| == |text.levels| && Breaks(types, text.types, text.levels, i)
    ensures var ss := Sequences(text, {}, 0); b < |ss| && !IsBD13(types, text, ss[b])
  {
    hide *;
    var a := BreakerIsLast(base, types, text, i);
    var m: nat;
    b, m := SequenceOf(text, a, i);
    BreaksBD13(base, types, text, Sequences(text, {}, 0)[b], m, i);
  }

  lemma SequenceOf(text: Text, a: nat, i: nat) returns (b: nat, m: nat)
    requires TextOk(text) && LastKept(text, a, i)
    ensures var ss := Sequences(text, {}, 0); b < |ss| && JoinsOk(text, ss[b]) && m < |ss[b]| && ss[b][m] == a
  {
    var ss := Sequences(text, {}, 0);
    SequencesPartition(text, {}, 0);
    assert a < |text.runs|;
    hide JoinsOk, Sequences, LastKept, TextOk;
    assert Holds(ss, a);
    b :| b < |ss| && a in ss[b];
    m :| m < |ss[b]| && ss[b][m] == a;
  }

  // ----- the source -----

  lemma TextMeetsBD13Iff(base: Level, types: seq<BidiClass>, text: Text)
    requires 0 <= base <= 1 && SeparatorOnlyLast(types) && IsTextOf(base, types, text)
    ensures TextOk(text) && |types| == |text.types| == |text.levels|
    ensures var ss := Sequences(text, {}, 0);
            (forall i: nat :: i < |ss| ==> IsBD13(types, text, ss[i])) <==> Unbroken(types, text.types, text.levels)
  {
    assert TextOk(text) && |types| == |text.types| == |text.levels|;
    if Unbroken(types, text.types, text.levels) {
      assert Plain(base, types, text);
      hide *;
      SequencesAreBD13(base, types, text);
    } else {
      var i: nat :| i < |types| && Breaks(types, text.types, text.levels, i);
      hide *;
      var b := BrokenSequence(base, types, text, i);
    }
  }

  lemma SequencesAreBuilt(classes: seq<BidiClass>, levels: seq<Level>, base: Level)
    requires |classes| == |levels|
    ensures TextOk(TextOf(classes, levels, base))
    ensures var seqs, ss := SequencesOfText(classes, levels, base), Sequences(TextOf(classes, levels, base), {}, 0);
            |seqs| == |ss| && forall i :: 0 <= i < |seqs| ==> seqs[i].runs == ss[i]
  {
    var text := TextOf(classes, levels, base);
    TextOfIsTiled(classes, levels, base);
    SequencesPartition(text, {}, 0);
    SequencesCoverText(text, base, Sequences(text, {}, 0));
    hide Sequences, SequencesOk, Covers, Tiled, TextOf, Partition, TextOk, MembersInText, LengthOf, IndicesOf, EosOf;
  }

  lemma SourceText(base: Level, types: seq<BidiClass>, text: Text)
    requires 0 <= base <= 1 && NoDroppedPush(base, types) && Completes(MAX_DEPTH, base, types)
    requires text == TextOf(Classes(MAX_DEPTH, base, types), Levels(MAX_DEPTH, base, types), base)
    ensures IsTextOf(base, types, text)
    ensures text.types == Classes(MAX_DEPTH, base, types) && text.levels == Levels(MAX_DEPTH, base, types)
  {
    var classes, levels := Classes(MAX_DEPTH, base, types), Levels(MAX_DEPTH, base, types);
    assert |classes| == |levels| == |types|;
    hide *;
    ConformsWithoutDroppedPush(base, types);
    CutIntoRuns(classes, levels, base);
    forall k: nat | k < |types|
      ensures levels[k] == LevelOf(base, types, k) && classes[k] == ClassOf(base, types, k)
    {
      LevelsAre(base, types, k);
    }
    MakesText(base, types, text);
  }

  lemma CutIntoRuns(classes: seq<BidiClass>, levels: seq<Level>, base: Level)
    requires |classes| == |levels|
    ensures var text := TextOf(classes, levels, base);
            && text.types == classes && text.levels == levels
            && Tiled(text, 0) && TextOk(text) && NoneEmpty(levels, text.runs)
  {
    TextOfIsTiled(classes, levels, base);
    RunsHaveKept(classes, levels, 0);
    hide Tiled, TextOk, RunsFrom, HasKept;
  }

  lemma MakesText(base: Level, types: seq<BidiClass>, text: Text)
    requires 0 <= base <= 1 && |text.types| == |text.levels| == |types|
    requires Tiled(text, 0) && TextOk(text) && NoneEmpty(text.levels, text.runs)
    requires forall k: nat :: k < |types| ==> text.levels[k] == LevelOf(base, types, k) && text.types[k] == ClassOf(base, types, k)
    ensures IsTextOf(base, types, text)
  {
    hide LevelOf, ClassOf, Tiled, TextOk, NoneEmpty;
  }

  /** The isolating run sequences the source builds, in a text that drops no push and has a paragraph
      separator at its end only: they are those of BD13 if and only if no initiator breaks them. */
  lemma SourceFollowsBD13(base: Level, types: seq<BidiClass>)
    requires 0 <= base <= 1 && NoDroppedPush(base, types) && SeparatorOnlyLast(types)
    ensures Completes(MAX_DEPTH, base, types)
    ensures var classes, levels := Classes(MAX_DEPTH, base, types), Levels(MAX_DEPTH, base, types);
            var text, seqs := TextOf(classes, levels, base), SequencesOfText(classes, levels, base);
            && |classes| == |levels| == |types|
            && ((forall i: nat :: i < |seqs| ==> IsBD13(types, text, seqs[i].runs)) <==> Unbroken(types, classes, levels))
  {
    ConformsWithoutDroppedPush(base, types);
    var classes, levels := Classes(MAX_DEPTH, base, types), Levels(MAX_DEPTH, base, types);
    var text := TextOf(classes, levels, base);
    assert |classes| == |levels| == |types|;
    hide *;
    SourceText(base, types, text);
    TextMeetsBD13Iff(base, types, text);
    SequencesAreBuilt(classes, levels, base);
  }

  // ----- the condition, in terms of the text -----

  lemma SeparatorAtBase(base: Level, types: seq<BidiClass>, text: Text, n: nat)
    requires 0 <= base <= 1 && IsTextOf(base, types, text) && n < |types| == |text.levels| && types[n] == B
    ensures text.levels[n] == base
  {
    KeptAt(base, types, text, n);
    Decides(base, types, n);
    hide LevelOf, ClassOf, At, IsTextOf;
  }

  /** The level of the first character after an initiator. */
  lemma FirstLevelInside(base: Level, types: seq<BidiClass>, text: Text, i: nat, n: nat)
    requires 0 <= base <= 1 && IsTextOf(base, types, text) && i < |types| == |text.levels| && IsIsoInit(types[i])
    requires n == NextKept(text.levels, i + 1) && n < |types| && types[n] != B && types[n] != PDI
    ensures if Opened(base, types, i) then text.levels[n] > text.levels[i] else text.levels[n] == text.levels[i]
  {
    hide *;
    NextIsKept(text.levels, i, n);
    NothingBetween(base, types, text, i, n);
    KeptAt(base, types, text, i);
    KeptAt(base, types, text, n);
    LevelInside(base, types, i, n);
  }

  /** Its matching PDI, seen from the first character after an initiator. */
  lemma MatchAhead(base: Level, types: seq<BidiClass>, text: Text, i: nat, j: nat, n: nat)
    requires 0 <= base <= 1 && SeparatorOnlyLast(types) && IsTextOf(base, types, text) && Matches(types, i, j)
    requires i < j < |types| == |text.levels| && OpenAt(types, i, j) && types[j] == PDI && n == NextKept(text.levels, i + 1)
    ensures i < n <= j && text.levels[j] == text.levels[i]
    ensures n < j && Opened(base, types, i) ==> text.levels[n] > text.levels[i]
    ensures n < j && !Opened(base, types, i) ==> text.levels[n] == text.levels[i]
  {
    hide *;
    KeptAt(base, types, text, i);
    KeptAt(base, types, text, j);
    PdiIsKept();
    MatchedLikeInitiator(base, types, i, j);
    NextKeptUpTo(text.levels, i, j);
    KeptAt(base, types, text, n);
    if n < j {
      InsideOf(base, types, i, n, j);
    }
  }

  /** A character that was not removed stands between the initiator at `i` and its matching PDI. */
  ghost predicate MatchedFurther(types: seq<BidiClass>, levels: seq<Level>, i: nat)
    requires i < |types| == |levels|
  {
    exists j: nat :: NextKept(levels, i + 1) < j && Matches(types, i, j)
  }

  /** An initiator that opens an isolate breaks BD13 when it is overridden and something stands between it
      and its matching PDI; otherwise only right before the final separator, at the base level. */
  lemma OpenedBreaksIff(base: Level, types: seq<BidiClass>, text: Text, i: nat)
    requires 0 <= base <= 1 && SeparatorOnlyLast(types) && IsTextOf(base, types, text)
    requires i < |types| == |text.types| == |text.levels| && Opened(base, types, i)
    ensures var n := NextKept(text.levels, i + 1);
            Breaks(types, text.types, text.levels, i) <==>
              if text.types[i] != types[i] then MatchedFurther(types, text.levels, i)
              else n < |types| && types[n] == B && text.levels[i] == base
  {
    assert IsIsoInit(types[i]);
    if text.types[i] != types[i] {
      OverriddenOpened(base, types, text, i);
    } else {
      var n := NextKept(text.levels, i + 1);
      hide Matches, Opened, IsTextOf;
      if n < |types| && types[n] == B {
        SeparatorAtBase(base, types, text, n);
      } else if n < |types| && types[n] != PDI {
        FirstLevelInside(base, types, text, i, n);
      }
    }
  }

  lemma OverriddenOpened(base: Level, types: seq<BidiClass>, text: Text, i: nat)
    requires 0 <= base <= 1 && SeparatorOnlyLast(types) && IsTextOf(base, types, text)
    requires i < |types| == |text.types| == |text.levels| && Opened(base, types, i) && text.types[i] != types[i]
    ensures Breaks(types, text.types, text.levels, i) <==> MatchedFurther(types, text.levels, i)
  {
    hide *;
    if Breaks(types, text.types, text.levels, i) {
      var n, j := OverriddenBreaks(types, text.types, text.levels, i);
      MatchAhead(base, types, text, i, j, n);
      IsFurther(types, text.levels, i, j);
    }
    if MatchedFurther(types, text.levels, i) {
      var n, j := FurtherIs(types, text.levels, i);
      MatchAhead(base, types, text, i, j, n);
      ThenMisses(types, text.types, text.levels, i, j, n);
    }
  }

  lemma IsFurther(types: seq<BidiClass>, levels: seq<Level>, i: nat, j: nat)
    requires i < |types| == |levels| && Matches(types, i, j) && NextKept(levels, i + 1) < j
    ensures MatchedFurther(types, levels, i)
  {
    hide Matches;
  }

  lemma FurtherIs(types: seq<BidiClass>, levels: seq<Level>, i: nat) returns (n: nat, j: nat)
    requires i < |types| == |levels| && MatchedFurther(types, levels, i)
    ensures n == NextKept(levels, i + 1) && n < j < |types| && Matches(types, i, j)
    ensures i < j && OpenAt(types, i, j) && types[j] == PDI && IsIsoInit(types[i])
  {
    n := NextKept(levels, i + 1);
    j :| n < j && Matches(types, i, j);
    hide Depth;
  }

  lemma ThenMisses(types: seq<BidiClass>, classes: seq<BidiClass>, levels: seq<Level>, i: nat, j: nat, n: nat)
    requires i < |types| == |classes| == |levels| && IsIsoInit(types[i]) && classes[i] != types[i] && Matches(types, i, j)
    requires n == NextKept(levels, i + 1) && n < |types| && levels[n] != levels[i]
    ensures Breaks(types, classes, levels, i)
  {
    hide Matches;
  }

  /** An initiator that overflows breaks BD13 exactly when it is not overridden and something else than a
      PDI comes right after it, a separator at another level apart. */
  lemma OverflowingBreaksIff(base: Level, types: seq<BidiClass>, text: Text, i: nat)
    requires 0 <= base <= 1 && SeparatorOnlyLast(types) && IsTextOf(base, types, text)
    requires i < |types| == |text.types| == |text.levels| && IsIsoInit(types[i]) && !Opened(base, types, i)
    ensures var n := NextKept(text.levels, i + 1);
            Breaks(types, text.types, text.levels, i) <==>
              text.types[i] == types[i] && n < |types| && types[n] != PDI && (types[n] == B ==> text.levels[i] == base)
  {
    if text.types[i] != types[i] {
      OverriddenOverflow(base, types, text, i);
    } else {
      var n := NextKept(text.levels, i + 1);
      hide Matches, Opened, IsTextOf;
      if n < |types| && types[n] == B {
        SeparatorAtBase(base, types, text, n);
      } else if n < |types| && types[n] != PDI {
        FirstLevelInside(base, types, text, i, n);
      }
    }
  }

  lemma OverriddenOverflow(base: Level, types: seq<BidiClass>, text: Text, i: nat)
    requires 0 <= base <= 1 && SeparatorOnlyLast(types) && IsTextOf(base, types, text)
    requires i < |types| == |text.types| == |text.levels| && !Opened(base, types, i) && text.types[i] != types[i]
    ensures !Breaks(types, text.types, text.levels, i)
  {
    hide *;
    if Breaks(types, text.types, text.levels, i) {
      var n, j := OverriddenBreaks(types, text.types, text.levels, i);
      MatchAhead(base, types, text, i, j, n);
    }
  }

  /** Where the source leaves BD13 although no isolate overflows. */
  ghost predicate Misread(base: Level, types: seq<BidiClass>, classes: seq<BidiClass>, levels: seq<Level>, i: nat)
    requires i < |types| == |classes| == |levels|
  {
    var n := NextKept(levels, i + 1);
    && IsIsoInit(types[i])
    && if classes[i] != types[i] then MatchedFurther(types, levels, i)
       else n < |types| && types[n] == B && levels[i] == base
  }

  ghost predicate AllOpened(base: Level, types: seq<BidiClass>)
    requires 0 <= base <= 1
  {
    forall i: nat :: i < |types| && IsIsoInit(types[i]) ==> Opened(base, types, i)
  }

  /** Without overflowing isolates: the source meets BD13 if and only if no overridden initiator has
      something between it and its matching PDI, and none stands right before the separator. */
  lemma SourceFollowsBD13WithoutOverflow(base: Level, types: seq<BidiClass>)
    requires 0 <= base <= 1 && NoDroppedPush(base, types) && SeparatorOnlyLast(types) && AllOpened(base, types)
    ensures Completes(MAX_DEPTH, base, types)
    ensures var classes, levels := Classes(MAX_DEPTH, base, types), Levels(MAX_DEPTH, base, types);
            var text, seqs := TextOf(classes, levels, base), SequencesOfText(classes, levels, base);
            && |classes| == |levels| == |types|
            && ((forall i: nat :: i < |seqs| ==> IsBD13(types, text, seqs[i].runs))
                <==> forall i: nat :: i < |types| ==> !Misread(base, types, classes, levels, i))
  {
    SourceFollowsBD13(base, types);
    var classes, levels := Classes(MAX_DEPTH, base, types), Levels(MAX_DEPTH, base, types);
    var text := TextOf(classes, levels, base);
    assert Unbroken(types, classes, levels) <==> forall i: nat :: i < |types| ==> !Misread(base, types, classes, levels, i) by {
      forall i: nat | i < |types| ensures Breaks(types, classes, levels, i) <==> Misread(base, types, classes, levels, i) {
        hide *;
        SourceText(base, types, text);
        MisreadIs(base, types, text, i);
      }
      hide Breaks, Misread, Classes, Levels;
    }
    hide *;
  }

  lemma MisreadIs(base: Level, types: seq<BidiClass>, text: Text, i: nat)
    requires 0 <= base <= 1 && SeparatorOnlyLast(types) && IsTextOf(base, types, text) && AllOpened(base, types)
    requires i < |types| == |text.types| == |text.levels|
    ensures Breaks(types, text.types, text.levels, i) <==> Misread(base, types, text.types, text.levels, i)
  {
    hide Opened, IsTextOf, MatchedFurther, Matches, IsIsoInit;
    if IsIsoInit(types[i]) {
      OpenedBreaksIff(base, types, text, i);
    }
  }

  // ----- two texts on which the source leaves BD13 -----

  /** What is wrong with the sequences of a text with a breaking initiator. */
  ghost predicate LeavesBD13(base: Level, types: seq<BidiClass>)
    requires Completes(MAX_DEPTH, base, types)
  {
    var classes, levels := Classes(MAX_DEPTH, base, types), Levels(MAX_DEPTH, base, types);
    var text, seqs := TextOf(classes, levels, base), SequencesOfText(classes, levels, base);
    exists i: nat :: i < |seqs| && !IsBD13(types, text, seqs[i].runs)
  }

  lemma BreakerLeavesBD13(base: Level, types: seq<BidiClass>, i: nat)
    requires 0 <= base <= 1 && NoDroppedPush(base, types) && SeparatorOnlyLast(types) && i < |types|
    requires Completes(MAX_DEPTH, base, types)
    requires |Classes(MAX_DEPTH, base, types)| == |Levels(MAX_DEPTH, base, types)| == |types|
    requires Breaks(types, Classes(MAX_DEPTH, base, types), Levels(MAX_DEPTH, base, types), i)
    ensures LeavesBD13(base, types)
  {
    SourceFollowsBD13(base, types);
    hide Breaks, IsBD13, SequencesOfText, TextOf, Classes, Levels, NoDroppedPush, SeparatorOnlyLast;
  }

  lemma {:induction false} FewInitiators(types: seq<BidiClass>, k: nat)
    requires k <= |types|
    ensures Initiators(types, k) <= k
  {
    if k > 0 {
      FewInitiators(types, k - 1);
    }
  }

  /** LRO RLI x PDI: the override turns RLI and PDI into letters. */
  function OverriddenIsolate(): seq<BidiClass> {
    [LRO, RLI, L, PDI]
  }

  function AfterLro(): Status {
    Status(Initial(0).stack + [Entry(2, OverrideLtr, false)], 0, 0, 0)
  }

  function AfterRli(): Status {
    Status(AfterLro().stack + [Entry(3, NoOverride, true)], 0, 0, 1)
  }

  lemma OverriddenTops()
    ensures AfterLro().stack != [] && AfterLro().Top() == Entry(2, OverrideLtr, false)
    ensures AfterRli().stack != [] && AfterRli().Top() == Entry(3, NoOverride, true) && AfterRli().overflowIsolate == 0
  {
  }

  lemma OverriddenSteps(fsiRtl: bool)
    ensures Initial(0).stack != [] && Initial(0).Top().level <= MAX_DEPTH
    ensures Step(UAX_SLOTS, Initial(0), LRO, fsiRtl) == Some(AfterLro())
    ensures AfterLro().stack != [] && AfterLro().Top().level <= MAX_DEPTH
    ensures Step(UAX_SLOTS, AfterLro(), RLI, fsiRtl) == Some(AfterRli())
  {
    assert NextLevel(LRO, 0, false) == Some(2);
    assert NextLevel(RLI, 2, fsiRtl) == Some(3);
  }

  lemma OverriddenRun(types: seq<BidiClass>, k: nat)
    requires types == OverriddenIsolate() && k == 1
    ensures At(0, types, k) == AfterLro() && At(0, types, k + 1) == AfterRli()
  {
    assert |types| == 4 && types[k - 1] == LRO && types[k] == RLI;
    var one, two := At(0, types, k), At(0, types, k + 1);
    hide *;
    OverriddenSteps(FsiIsRtl(types, k - 1));
    OverriddenSteps(FsiIsRtl(types, k));
    RunStart(UAX_SLOTS, 0, types);
    RunStep(UAX_SLOTS, 0, types, k - 1);
    RunStep(UAX_SLOTS, 0, types, k);
  }

  lemma OverriddenMatches(types: seq<BidiClass>, k: nat)
    requires types == OverriddenIsolate() && k == 1
    ensures Matches(types, k, k + 2) && SeparatorOnlyLast(types)
  {
    assert Depth(types, k + 1, k + 1) == 0;
    assert Depth(types, k + 1, k + 2) == 0;
  }

  lemma OverriddenLevels(types: seq<BidiClass>, k: nat)
    requires types == OverriddenIsolate() && k == 1
    ensures LevelOf(0, types, k) == 2 && ClassOf(0, types, k) == L && LevelOf(0, types, k + 1) == 3
    ensures Opened(0, types, k)
  {
    assert |types| == 4 && types[k] == RLI && types[k + 1] == L;
    hide *;
    OverriddenRun(types, k);
    OverriddenTops();
    UnderTop(0, types, k, Entry(2, OverrideLtr, false));
    UnderTop(0, types, k + 1, Entry(3, NoOverride, true));
    OverrideGives(RLI);
    IsOpened(types, k);
  }

  lemma OverrideGives(bc: BidiClass)
    ensures ApplyOverride(OverrideLtr, bc) == L && ApplyOverride(NoOverride, bc) == bc
  {
  }

  lemma IsOpened(types: seq<BidiClass>, k: nat)
    requires k < |types| && types[k] == RLI && At(0, types, k + 1).overflowIsolate == 0
    ensures Opened(0, types, k)
  {
    hide At;
  }

  /** An ordinary character takes level and class from the entry on top. */
  lemma UnderTop(base: Level, types: seq<BidiClass>, k: nat, e: Entry)
    requires 0 <= base <= 1 && k < |types| && At(base, types, k).stack != [] && At(base, types, k).Top() == e
    requires types[k] == L || IsIsoInit(types[k])
    ensures LevelOf(base, types, k) == e.level && ClassOf(base, types, k) == ApplyOverride(e.ovr, types[k])
  {
    Decides(base, types, k);
    hide At, LevelOf, ClassOf, ApplyOverride;
  }

  lemma OverriddenSplits(types: seq<BidiClass>, classes: seq<BidiClass>, levels: seq<Level>, k: nat)
    requires k + 1 < |types| == |classes| == |levels|
    requires types[k] == RLI && classes[k] == L && levels[k] == 2 && levels[k + 1] == 3
    requires Matches(types, k, k + 2)
    ensures Breaks(types, classes, levels, k)
  {
    hide Matches;
    assert NextKept(levels, k + 1) == k + 1;
  }

  /** The RLI and its PDI end up in different sequences: no push is dropped and no isolate overflows, but
      there is an override. */
  lemma OverrideLeavesBD13()
    ensures var types := OverriddenIsolate();
            && NoDroppedPush(0, types) && SeparatorOnlyLast(types) && Opened(0, types, 1) && Matches(types, 1, 3)
            && Completes(MAX_DEPTH, 0, types) && LeavesBD13(0, types)
  {
    var types, k := OverriddenIsolate(), 1;
    assert |types| == 4 && types[k] == RLI && types[k + 1] == L;
    hide *;
    FewInitiators(types, 4);
    FewInitiatorsDropNothing(0, types);
    OverriddenMatches(types, k);
    OverriddenLevels(types, k);
    ConformsWithoutDroppedPush(0, types);
    LevelsAre(0, types, k);
    LevelsAre(0, types, k + 1);
    OverriddenSplits(types, Classes(UAX_SLOTS, 0, types), Levels(UAX_SLOTS, 0, types), k);
    BreakerLeavesBD13(0, types, k);
  }

  /** The LRI right before a letter overflows: levels above 124 would be 126. */
  function OverflowingIsolate(): seq<BidiClass> {
    Tower([LRI, L, PDI])
  }

  lemma OverflowingSteps(k: nat, fsiRtl: bool)
    requires k == 124
    ensures Step(UAX_SLOTS, Status(Ramp(k), 0, 0, 0), LRI, fsiRtl) == Some(Status(Ramp(k), 1, 0, 0))
    ensures Step(UAX_SLOTS, Status(Ramp(k), 1, 0, 0), L, fsiRtl) == Some(Status(Ramp(k), 1, 0, 0))
    ensures Step(UAX_SLOTS, Status(Ramp(k), 1, 0, 0), PDI, fsiRtl) == Some(Status(Ramp(k), 0, 0, 0))
  {
    assert NextLevel(LRI, k, fsiRtl) == None;
  }

  lemma OverflowingRun(types: seq<BidiClass>, k: nat)
    requires types == OverflowingIsolate() && k == 124
    ensures |types| == k + 3 && types[k] == LRI && types[k + 1] == L && types[k + 2] == PDI
    ensures At(0, types, k) == Status(Ramp(k), 0, 0, 0)
    ensures At(0, types, k + 1) == At(0, types, k + 2) == Status(Ramp(k), 1, 0, 0)
    ensures At(0, types, k + 3) == Status(Ramp(k), 0, 0, 0)
  {
    var rest := [LRI, L, PDI];
    assert |types| == k + 3 && types == Tower(rest);
    assert types[k] == rest[0] && types[k + 1] == rest[1] && types[k + 2] == rest[2];
    assert rest[0] == LRI && rest[1] == L && rest[2] == PDI;
    var s, t, u, v := At(0, types, k), At(0, types, k + 1), At(0, types, k + 2), At(0, types, k + 3);
    hide *;
    TowerClimbs(UAX_SLOTS, rest, k);
    OverflowingSteps(k, FsiIsRtl(types, k));
    OverflowingSteps(k, FsiIsRtl(types, k + 1));
    OverflowingSteps(k, FsiIsRtl(types, k + 2));
    RunStep(UAX_SLOTS, 0, types, k);
    RunStep(UAX_SLOTS, 0, types, k + 1);
    RunStep(UAX_SLOTS, 0, types, k + 2);
  }

  lemma TowerDropsNothing(rest: seq<BidiClass>, k: nat)
    requires k == 124
    requires forall m: nat :: k < m <= k + |rest| ==> |At(0, Tower(rest), m).stack| <= MAX_DEPTH
    ensures NoDroppedPush(0, Tower(rest))
  {
    var types := Tower(rest);
    hide Tower, At, Ramp;
    forall m | 0 <= m <= |types|
      ensures Run(UAX_SLOTS, 0, types, m).Some? && |Run(UAX_SLOTS, 0, types, m).value.stack| <= MAX_DEPTH
    {
      hide Run;
      if m <= k {
        TowerClimbs(UAX_SLOTS, rest, m);
      } else {
        assert |At(0, types, m).stack| <= MAX_DEPTH;
      }
    }
    hide Run;
  }

  lemma OverflowingLevels(types: seq<BidiClass>, k: nat)
    requires types == OverflowingIsolate() && k == 124
    ensures |types| == k + 3 && types[k] == LRI && types[k + 1] == L && types[k + 2] == PDI
    ensures LevelOf(0, types, k) == LevelOf(0, types, k + 1) == 124 && ClassOf(0, types, k) == LRI
  {
    hide *;
    OverflowingRun(types, k);
    RampTop(k);
    var e := Entry(k, NoOverride, false);
    LriInitiates();
    UnderTop(0, types, k, e);
    UnderTop(0, types, k + 1, e);
    OverrideGives(LRI);
  }

  lemma LriInitiates()
    ensures IsIsoInit(LRI)
  {
  }

  lemma RampTop(k: nat)
    requires k <= 124
    ensures Status(Ramp(k), 0, 0, 0).stack != [] && Status(Ramp(k), 0, 0, 0).Top() == Entry(k, NoOverride, false)
    ensures Status(Ramp(k), 1, 0, 0).stack != [] && Status(Ramp(k), 1, 0, 0).Top() == Entry(k, NoOverride, false)
    ensures |Ramp(k)| <= MAX_DEPTH
  {
  }

  lemma OverflowingSplits(types: seq<BidiClass>, classes: seq<BidiClass>, levels: seq<Level>, k: nat)
    requires k + 1 < |types| == |classes| == |levels| && types[k] == LRI && types[k + 1] == L
    requires classes[k] == LRI && levels[k] == levels[k + 1] == 124
    ensures Breaks(types, classes, levels, k)
  {
    assert NextKept(levels, k + 1) == k + 1;
  }

  lemma NoSeparatorInTower(types: seq<BidiClass>)
    requires types == OverflowingIsolate()
    ensures SeparatorOnlyLast(types)
  {
  }

  lemma OverflowingDropsNothing(types: seq<BidiClass>, k: nat)
    requires types == OverflowingIsolate() && k == 124
    ensures NoDroppedPush(0, types)
  {
    var rest := [LRI, L, PDI];
    assert types == Tower(rest) && |rest| == 3;
    hide *;
    OverflowingRun(types, k);
    RampTop(k);
    forall m: nat | k < m <= k + |rest| ensures |At(0, Tower(rest), m).stack| <= MAX_DEPTH {
      assert m == k + 1 || m == k + 2 || m == k + 3;
    }
    TowerDropsNothing(rest, k);
  }

  /** One level run is cut in two sequences: nothing is dropped or overridden, but an isolate overflows. */
  lemma OverflowLeavesBD13()
    ensures var types := OverflowingIsolate();
            && NoDroppedPush(0, types) && SeparatorOnlyLast(types) && |types| == 127 && !Opened(0, types, 124)
            && Completes(MAX_DEPTH, 0, types) && LeavesBD13(0, types)
  {
    var types, k := OverflowingIsolate(), 124;
    hide *;
    OverflowingDropsNothing(types, k);
    NoSeparatorInTower(types);
    OverflowingLevels(types, k);
    Overflowing(types, k);
    ConformsWithoutDroppedPush(0, types);
    LevelsAre(0, types, k);
    LevelsAre(0, types, k + 1);
    OverflowingSplits(types, Classes(UAX_SLOTS, 0, types), Levels(UAX_SLOTS, 0, types), k);
    BreakerLeavesBD13(0, types, k);
  }

  lemma Overflowing(types: seq<BidiClass>, k: nat)
    requires types == OverflowingIsolate() && k == 124
    ensures k < |types| && !Opened(0, types, k)
  {
    OverflowingRun(types, k);
    hide At, Ramp, OverflowingIsolate;
  }
}
