/** What follows for embeddings and isolates: what their ends undo, the levels between, and the levels and
    classes of the source from the open initiators alone. */
module OpenLaws {
  import opened Options
  import opened BidiTypes
  import opened Isolates
  import opened LevelStacks
  import opened Explicit
  import opened ExplicitFacts
  import opened IsolateLevels
  import opened Embeddings
  import opened OpenEntries
  import opened OpenStacks

  // ----- what closes an initiator -----

  lemma SameOpenSameStatus(base: Level, types: seq<BidiClass>, j: nat, k: nat)
    requires 0 <= base <= 1 && j <= |types| && k <= |types| && OpenInitiators(types, j) == OpenInitiators(types, k)
    ensures At(base, types, j) == At(base, types, k)
  {
    hide *;
    StatusOfLastOpen(base, types, j);
    StatusOfLastOpen(base, types, k);
    DecidedBy(base, types, j);
    DecidedBy(base, types, k);
  }

  /** X7: behind its matching PDF an embedding has left no trace, whether it was pushed or overflowed. */
  lemma PdfEndsEmbedding(base: Level, types: seq<BidiClass>, i: nat, j: nat)
    requires 0 <= base <= 1 && MatchingPdf(types, i, j)
    ensures i < j < |types| && At(base, types, j + 1) == At(base, types, i)
  {
    hide *;
    MatchingPdfEnds(types, i, j);
    SameOpenSameStatus(base, types, j + 1, i);
  }

  /** X7: a PDF that matches no embedding initiator changes nothing. */
  lemma LonePdfChangesNothing(base: Level, types: seq<BidiClass>, j: nat)
    requires 0 <= base <= 1 && j < |types| && types[j] == PDF && forall i: nat :: !MatchingPdf(types, i, j)
    ensures At(base, types, j + 1) == At(base, types, j)
  {
    hide *;
    LonePdf(types, j);
    SameOpenSameStatus(base, types, j + 1, j);
  }

  /** X6a: behind its matching PDI an isolate has left no trace, nor have the embeddings in it. */
  lemma PdiEndsIsolate(base: Level, types: seq<BidiClass>, i: nat, j: nat)
    requires 0 <= base <= 1 && Matches(types, i, j)
    ensures i < j < |types| && At(base, types, j + 1) == At(base, types, i)
  {
    hide *;
    MatchingPdiEnds(types, i, j);
    SameOpenSameStatus(base, types, j + 1, i);
  }

  /** X6a: a PDI that matches no isolate initiator changes nothing. */
  lemma LonePdiChangesNothing(base: Level, types: seq<BidiClass>, j: nat)
    requires 0 <= base <= 1 && j < |types| && types[j] == PDI && forall i: nat :: !Matches(types, i, j)
    ensures At(base, types, j + 1) == At(base, types, j)
  {
    hide *;
    LonePdi(types, j);
    SameOpenSameStatus(base, types, j + 1, j);
  }

  // ----- the levels between -----

  /** The initiator at `i` has put an entry on the stack. */
  ghost predicate Pushes(base: Level, types: seq<BidiClass>, i: nat)
    requires 0 <= base <= 1 && i < |types|
  {
    |At(base, types, i + 1).stack| > |At(base, types, i).stack|
  }

  ghost predicate StandsOn(base: Level, types: seq<BidiClass>, i: nat, k: nat)
    requires 0 <= base <= 1 && i < |types| && k <= |types|
  {
    var t, u := At(base, types, i + 1), At(base, types, k);
    t.stack <= u.stack && (!t.NoOverflow() ==> u.stack == t.stack && !u.NoOverflow())
  }

  lemma StandsOnNext(base: Level, types: seq<BidiClass>, i: nat, l: nat)
    requires 0 <= base <= 1 && i < |types| && l < |types| && StandsOn(base, types, i, l) && IsInitiator(types[l])
    ensures StandsOn(base, types, i, l + 1)
  {
    InitiatorPushes(base, types, l);
    hide At, Run, StatusOk, StackOk, EntryFor, NoneSuits;
  }

  /** While an initiator is open its entry, if it has one, stays, and if not nothing is pushed. */
  lemma {:induction false} OpenStands(base: Level, types: seq<BidiClass>, i: nat, k: nat)
    requires 0 <= base <= 1 && k <= |types| && i in OpenInitiators(types, k)
    ensures i < |types| && StandsOn(base, types, i, k)
    decreases k
  {
    hide *;
    var open := OpenInitiators(types, k);
    var l := open[|open| - 1];
    StatusOfLastOpen(base, types, k);
    DecidedBy(base, types, k);
    LastIsInitiator(types, k);
    ListAtInitiator(types, k, |open| - 1);
    if l != i {
      OpenStands(base, types, i, l);
      StandsOnNext(base, types, i, l);
    } else {
      StandsAtFirst(base, types, i);
    }
    SameStands(base, types, i, l + 1, k);
  }

  lemma StandsAtFirst(base: Level, types: seq<BidiClass>, i: nat)
    requires 0 <= base <= 1 && i < |types|
    ensures StandsOn(base, types, i, i + 1)
  {
    hide At;
  }

  lemma SameStands(base: Level, types: seq<BidiClass>, i: nat, j: nat, k: nat)
    requires 0 <= base <= 1 && i < |types| && j <= |types| && k <= |types|
    requires StandsOn(base, types, i, j) && At(base, types, j) == At(base, types, k)
    ensures StandsOn(base, types, i, k)
  {
    hide At;
  }

  lemma OpenIsListed(types: seq<BidiClass>, i: nat, k: nat)
    requires IsOpen(types, i, k)
    ensures i < k <= |types| && IsInitiator(types[i]) && i in OpenInitiators(types, k)
  {
    NotBoth(types, i, k);
    assert k <= |types|;
    OpenInitiatorsOk(types, k);
    hide MemberOk, IsOpen;
  }

  lemma TopAbove(base: Level, under: seq<Entry>, stack: seq<Entry>)
    requires StackOk(base, stack) && 1 < |under| && under <= stack
    ensures TopEntry(stack).level > under[|under| - 2].level
  {
    assert stack[|under| - 2] == under[|under| - 2];
  }

  lemma TopWhileOpen(base: Level, types: seq<BidiClass>, i: nat, k: nat)
    requires 0 <= base <= 1 && i < k <= |types| && IsInitiator(types[i]) && StandsOn(base, types, i, k)
    ensures At(base, types, i).stack != [] && At(base, types, k).stack != []
    ensures if Pushes(base, types, i) then At(base, types, k).Top().level > At(base, types, i).Top().level
            else At(base, types, k).stack == At(base, types, i).stack
  {
    InitiatorPushes(base, types, i);
    hide At, Run, StatusOk, EntryFor, NoneSuits;
    var s, t, u := At(base, types, i), At(base, types, i + 1), At(base, types, k);
    OkAt(base, types, k);
    if t.NoOverflow() {
      TopAbove(base, t.stack, u.stack);
    }
  }

  lemma OkAt(base: Level, types: seq<BidiClass>, k: nat)
    requires 0 <= base <= 1 && k <= |types|
    ensures StackOk(base, At(base, types, k).stack)
  {
    hide At, Run, StackOk;
  }

  /** A position at which the character `p` takes its level: a PDI belongs to what it returns to. */
  function LevelPlace(types: seq<BidiClass>, p: nat): nat
    requires p < |types|
  {
    if types[p] == PDI then p + 1 else p
  }

  /** Inside an embedding or isolate whose initiator has pushed, all levels are above the level at the
      initiator; inside one that overflows they are that level. */
  lemma LevelWhileOpen(base: Level, types: seq<BidiClass>, i: nat, p: nat)
    requires 0 <= base <= 1 && p < |types| && IsOpen(types, i, LevelPlace(types, p))
    requires !IsRemovedClass(types[p]) && types[p] != B
    ensures i < |types| && At(base, types, i).stack != []
    ensures var level := At(base, types, i).Top().level;
            if Pushes(base, types, i) then LevelOf(base, types, p) > level else LevelOf(base, types, p) == level
  {
    var k := LevelPlace(types, p);
    Decides(base, types, p);
    hide *;
    OpenIsListed(types, i, k);
    OpenStands(base, types, i, k);
    TopWhileOpen(base, types, i, k);
    PlaceIs(types, p);
  }

  lemma PlaceIs(types: seq<BidiClass>, p: nat)
    requires p < |types|
    ensures LevelPlace(types, p) == if types[p] == PDI then p + 1 else p
  {
  }

  lemma OpenBetween(types: seq<BidiClass>, i: nat, j: nat, p: nat)
    requires MatchingPdf(types, i, j) && i < p < j
    ensures p < |types| && IsOpen(types, i, LevelPlace(types, p))
  {
    hide CountsOut, LeavesIsolate, OpenAt;
  }

  // ----- the levels of the source -----

  /** While no push is dropped, the source is behind a matching PDF where it was before the initiator, and
      every level in between that is not removed is above the level there if the initiator has pushed. */
  lemma SourcePdfEndsEmbedding(base: Level, types: seq<BidiClass>, i: nat, j: nat)
    requires 0 <= base <= 1 && NoDroppedPush(base, types) && MatchingPdf(types, i, j)
    ensures i < j < |types| && Completes(MAX_DEPTH, base, types)
    ensures var before := Run(MAX_DEPTH, base, types, i);
            && before.Some? && before.value.stack != []
            && Run(MAX_DEPTH, base, types, j + 1) == before
            && forall p :: i < p < j && !IsRemovedClass(types[p]) && types[p] != B ==>
                 if Pushes(base, types, i) then Levels(MAX_DEPTH, base, types)[p] > before.value.Top().level
                 else Levels(MAX_DEPTH, base, types)[p] == before.value.Top().level
  {
    hide *;
    ConformsWithoutDroppedPush(base, types);
    PdfEndsEmbedding(base, types, i, j);
    SourceAt(base, types, i);
    SourceAt(base, types, j + 1);
    LevelsAre(base, types, i);
    forall p | i < p < j && !IsRemovedClass(types[p]) && types[p] != B
      ensures if Pushes(base, types, i) then Levels(MAX_DEPTH, base, types)[p] > At(base, types, i).Top().level
              else Levels(MAX_DEPTH, base, types)[p] == At(base, types, i).Top().level
    {
      OpenBetween(types, i, j, p);
      LevelWhileOpen(base, types, i, p);
      LevelsAre(base, types, p);
    }
  }

  lemma SourceAt(base: Level, types: seq<BidiClass>, k: nat)
    requires 0 <= base <= 1 && NoDroppedPush(base, types) && k <= |types|
    ensures Run(MAX_DEPTH, base, types, k) == Some(At(base, types, k)) && At(base, types, k).stack != []
  {
    TracksUpTo(base, types, k);
    hide Run, NoDroppedPush, At;
  }

  /** The levels and classes of the source after X1-X9, while no push is dropped, from the entries that the
      initiators open at a character call for. */
  lemma SourceFromOpenInitiators(base: Level, types: seq<BidiClass>, p: nat, stack: seq<Entry>)
    requires 0 <= base <= 1 && NoDroppedPush(base, types) && p < |types|
    requires Listed(types, |types|, OpenInitiators(types, LevelPlace(types, p)))
    requires StackFor(base, types, OpenInitiators(types, LevelPlace(types, p)), stack)
    ensures Completes(MAX_DEPTH, base, types) && stack != []
    ensures var t, top := types[p], TopEntry(stack);
            var gone := t == RLE || t == LRE || t == RLO || t == LRO || t == PDF || t == BN;
            && Levels(MAX_DEPTH, base, types)[p] == (if gone then -1 else if t == B then base else top.level)
            && Classes(MAX_DEPTH, base, types)[p]
               == (if gone || t == B then t else if top.ovr == OverrideRtl then R else if top.ovr == OverrideLtr then L else t)
  {
    ConformsWithoutDroppedPush(base, types);
    LevelsAre(base, types, p);
    var k := LevelPlace(types, p);
    StackOfOpenInitiators(base, types, k);
    Decides(base, types, p);
    hide At, Run, StatusOk, StackOk, NoDroppedPush, LevelOf, ClassOf, StackFor, OpenInitiators, Listed, Levels, Classes, Completes;
    StackForIsUnique(base, types, OpenInitiators(types, k), stack, At(base, types, k).stack);
  }
}
