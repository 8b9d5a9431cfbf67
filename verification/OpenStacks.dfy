/** Rules X1-X8 without a history: the directional status stack before a character holds one entry for each
    initiator that is open there by BD9 and BD11, as far as the levels last. */
module OpenStacks {
  import opened BidiTypes
  import opened Isolates
  import opened LevelStacks
  import opened Explicit
  import opened ExplicitFacts
  import opened IsolateLevels
  import opened Embeddings
  import opened OpenEntries

  // ----- the direction an initiator asks for -----

  /** P2: the first strong character of the text from `from` on, isolates skipped. */
  ghost predicate FirstStrong(t: seq<BidiClass>, from: nat, k: nat) {
    Candidate(t, from, k) && NoCandidateBefore(t, from, k)
  }

  /** An L, R or AL in no isolate opened from `from` on. */
  ghost predicate StrongOutside(t: seq<BidiClass>, from: nat, k: nat) {
    && from <= k < |t| && (t[k] == L || t[k] == R || t[k] == AL)
    && forall i: nat :: from <= i < k ==> !OpenAt(t, i, k)
  }

  lemma FirstStrongIs(t: seq<BidiClass>, from: nat, k: nat)
    ensures FirstStrong(t, from, k) <==> StrongOutside(t, from, k) && forall e: nat :: e < k ==> !StrongOutside(t, from, e)
  {
    forall e: nat ensures Candidate(t, from, e) <==> StrongOutside(t, from, e) {
    }
    hide Candidate, StrongOutside;
  }

  /** X5c: the first strong character between the FSI and its matching PDI is R or AL. */
  ghost predicate StartsRtl(t: seq<BidiClass>, f: nat) {
    var from := f + 1;
    exists k: nat :: FirstStrong(t, from, k) && OpenAt(t, f, k) && (t[k] == R || t[k] == AL)
  }

  lemma {:induction false} SomeFirst(t: seq<BidiClass>, from: nat, limit: nat) returns (k: nat)
    requires !NoCandidateBefore(t, from, limit)
    ensures k < limit && FirstStrong(t, from, k)
  {
    hide Candidate;
    var e: nat :| e < limit && Candidate(t, from, e);
    if NoCandidateBefore(t, from, e) {
      k := e;
    } else {
      k := SomeFirst(t, from, e);
    }
  }

  lemma OnlyFirst(t: seq<BidiClass>, from: nat, k: nat, k': nat)
    requires FirstStrong(t, from, k) && FirstStrong(t, from, k')
    ensures k == k'
  {
    hide Candidate;
  }

  lemma FirstIsStrong(t: seq<BidiClass>, from: nat, k: nat)
    requires FirstStrong(t, from, k)
    ensures from <= k < |t| && (t[k] == L || t[k] == R || t[k] == AL)
  {
  }

  /** Before its matching PDI, if it has one, an isolate is open, and after it no more. */
  lemma OpenUpTo(t: seq<BidiClass>, f: nat, limit: nat, k: nat)
    requires f < k < |t| && IsIsoInit(t[f]) && t[k] != PDI
    requires Matches(t, f, limit) || (limit == |t| && forall j: nat :: !Matches(t, f, j))
    ensures OpenAt(t, f, k) <==> k < limit
  {
    if limit == |t| {
      if !Matches(t, f, limit) {
        NeverClosed(t, f, k);
      }
    } else if k < limit {
      OpenEarlier(t, f, limit, k);
    }
  }

  lemma FsiIsRtlIff(t: seq<BidiClass>, f: nat)
    requires f < |t| && t[f] == FSI
    ensures FsiIsRtl(t, f) <==> StartsRtl(t, f)
  {
    var limit := FsiLevelStopsAtMatchingPdi(t, f);
    var level := ScanLevel(t, f + 1, 0, true, Ltr);
    hide Candidate, NoCandidateBefore, OpenAt, Matches, ScanLevel, FirstStrong;
    if NoCandidateBefore(t, f + 1, limit) {
      NoneStartsRtl(t, f, limit);
    } else {
      var k := SomeFirst(t, f + 1, limit);
      FirstIsStrong(t, f + 1, k);
      FirstDecides(t, f + 1, limit, Ltr, level, k);
      OpenUpTo(t, f, limit, k);
      StartsAt(t, f, k);
    }
  }

  lemma StartsAt(t: seq<BidiClass>, f: nat, k: nat)
    requires FirstStrong(t, f + 1, k) && OpenAt(t, f, k)
    ensures k < |t| && (StartsRtl(t, f) <==> t[k] == R || t[k] == AL)
  {
    FirstIsStrong(t, f + 1, k);
    hide OpenAt, FirstStrong;
    if StartsRtl(t, f) {
      var from := f + 1;
      var k': nat :| FirstStrong(t, from, k') && OpenAt(t, f, k') && (t[k'] == R || t[k'] == AL);
      OnlyFirst(t, from, k, k');
    }
  }

  lemma NoneStartsRtl(t: seq<BidiClass>, f: nat, limit: nat)
    requires f < |t| && IsIsoInit(t[f]) && NoCandidateBefore(t, f + 1, limit)
    requires Matches(t, f, limit) || (limit == |t| && forall j: nat :: !Matches(t, f, j))
    ensures !StartsRtl(t, f)
  {
    hide OpenAt, Matches, FirstStrong;
    var from := f + 1;
    forall k: nat | FirstStrong(t, from, k) ensures !OpenAt(t, f, k) {
      FirstIsStrong(t, from, k);
      if k < limit {
        NotFirst(t, from, limit, k);
      } else {
        OpenUpTo(t, f, limit, k);
      }
    }
  }

  lemma NotFirst(t: seq<BidiClass>, from: nat, limit: nat, k: nat)
    requires NoCandidateBefore(t, from, limit) && k < limit
    ensures !FirstStrong(t, from, k)
  {
    hide Candidate;
  }

  lemma FirstDecides(t: seq<BidiClass>, from: nat, limit: nat, fallback: Direction, level: Level, k: nat)
    requires FirstStrongLevel(t, from, limit, fallback, level) && k < limit && FirstStrong(t, from, k)
    ensures k < |t| && level == if t[k] == L then 0 else 1
  {
    FirstIsStrong(t, from, k);
    hide NoCandidateBefore, Candidate;
  }

  /** RLE, RLO, RLI, and an FSI whose text starts right-to-left, ask for an odd level, the others for an even one. */
  ghost predicate AsksRtl(t: seq<BidiClass>, i: nat)
    requires i < |t|
  {
    t[i] == RLE || t[i] == RLO || t[i] == RLI || (t[i] == FSI && StartsRtl(t, i))
  }

  // ----- the entries of the open initiators -----

  ghost predicate Suits(t: seq<BidiClass>, i: nat, level: int)
    requires i < |t|
  {
    level % 2 == if AsksRtl(t, i) then 1 else 0
  }

  ghost predicate NoneSuits(t: seq<BidiClass>, i: nat, above: int, limit: int)
    requires i < |t|
  {
    forall level: int :: above < level < limit ==> !Suits(t, i, level)
  }

  /** The entry the initiator at `i` puts on an entry of level `below`: the least level above that suits it. */
  ghost predicate EntryFor(t: seq<BidiClass>, i: nat, below: Level, e: Entry)
    requires i < |t|
  {
    && below < e.level <= MAX_DEPTH && Suits(t, i, e.level) && NoneSuits(t, i, below, e.level)
    && (e.ovr == OverrideRtl <==> t[i] == RLO)
    && (e.ovr == OverrideLtr <==> t[i] == LRO)
    && (e.isolate <==> t[i] == RLI || t[i] == LRI || t[i] == FSI)
  }

  /** `stack` is the base entry with an entry for each of these initiators in turn, up to the first that no
      level up to 125 suits. */
  ghost predicate StackFor(base: Level, t: seq<BidiClass>, open: seq<nat>, stack: seq<Entry>)
    requires Listed(t, |t|, open)
  {
    && 1 <= |stack| <= |open| + 1
    && stack[0] == Entry(base, NoOverride, false)
    && (forall m: nat :: m < |stack| - 1 ==> EntryAt(t, open, stack, m))
    && (|stack| <= |open| ==> NoneSuits(t, open[|stack| - 1], TopEntry(stack).level, MAX_DEPTH + 1))
  }

  ghost predicate EntryAt(t: seq<BidiClass>, open: seq<nat>, stack: seq<Entry>, m: nat)
    requires Listed(t, |t|, open) && |stack| <= |open| + 1 && m < |stack| - 1
  {
    EntryFor(t, open[m], stack[m].level, stack[m + 1])
  }

  lemma EntryIsUnique(t: seq<BidiClass>, i: nat, below: Level, e: Entry, e': Entry)
    requires i < |t| && EntryFor(t, i, below, e) && EntryFor(t, i, below, e')
    ensures e == e'
  {
    hide AsksRtl, Suits;
  }

  lemma {:induction false} StacksAgree(base: Level, t: seq<BidiClass>, open: seq<nat>, stack: seq<Entry>, stack': seq<Entry>, m: nat)
    requires Listed(t, |t|, open) && StackFor(base, t, open, stack) && StackFor(base, t, open, stack')
    requires m < |stack| && m < |stack'|
    ensures stack[m] == stack'[m]
  {
    if m > 0 {
      StacksAgree(base, t, open, stack, stack', m - 1);
      assert EntryAt(t, open, stack, m - 1) && EntryAt(t, open, stack', m - 1);
      hide EntryFor, StackFor, Listed;
      EntryIsUnique(t, open[m - 1], stack[m - 1].level, stack[m], stack'[m]);
    }
  }

  lemma SuitsAt(base: Level, t: seq<BidiClass>, open: seq<nat>, stack: seq<Entry>, m: nat)
    requires Listed(t, |t|, open) && StackFor(base, t, open, stack) && m < |stack| - 1
    ensures !NoneSuits(t, open[m], stack[m].level, MAX_DEPTH + 1)
  {
    hide Suits;
    assert EntryAt(t, open, stack, m);
  }

  lemma NoneIsTaller(base: Level, t: seq<BidiClass>, open: seq<nat>, stack: seq<Entry>, stack': seq<Entry>)
    requires Listed(t, |t|, open) && StackFor(base, t, open, stack) && StackFor(base, t, open, stack')
    ensures |stack'| <= |stack|
  {
    if |stack| < |stack'| {
      var m := |stack| - 1;
      StacksAgree(base, t, open, stack, stack', m);
      hide EntryFor, NoneSuits;
      SuitsAt(base, t, open, stack', m);
    }
  }

  /** The open initiators determine the stack. */
  lemma StackForIsUnique(base: Level, t: seq<BidiClass>, open: seq<nat>, stack: seq<Entry>, stack': seq<Entry>)
    requires Listed(t, |t|, open) && StackFor(base, t, open, stack) && StackFor(base, t, open, stack')
    ensures stack == stack'
  {
    NoneIsTaller(base, t, open, stack, stack');
    NoneIsTaller(base, t, open, stack', stack);
    hide StackFor;
    forall m: nat | m < |stack| ensures stack[m] == stack'[m] {
      StacksAgree(base, t, open, stack, stack', m);
    }
  }

  // ----- the stack of the machine -----

  lemma NextSuits(t: seq<BidiClass>, i: nat, below: Level)
    requires i < |t| && IsInitiator(t[i]) && 0 <= below <= MAX_DEPTH
    ensures var next := NextLevel(t[i], below, FsiIsRtl(t, i));
            if next.Some? then below < next.value <= MAX_DEPTH && Suits(t, i, next.value) && NoneSuits(t, i, below, next.value)
            else NoneSuits(t, i, below, MAX_DEPTH + 1)
  {
    LeastGreaterIsLeast(below);
    if t[i] == FSI {
      FsiIsRtlIff(t, i);
    }
    hide StartsRtl, FsiIsRtl, LeastGreaterEven, LeastGreaterOdd;
  }

  lemma SameNext(bc: BidiClass, below: Level, fsiRtl: bool)
    requires IsEmbedding(bc) && below <= MAX_DEPTH
    ensures NextLevel(bc, below, false) == NextLevel(bc, below, fsiRtl)
  {
  }

  /** An initiator pushes the entry that suits it unless there is none or an open one has overflowed. */
  lemma InitiatorPushes(base: Level, types: seq<BidiClass>, i: nat)
    requires 0 <= base <= 1 && i < |types| && IsInitiator(types[i])
    ensures At(base, types, i).stack != []
    ensures var s, t := At(base, types, i), At(base, types, i + 1);
            if t.NoOverflow() then
              s.NoOverflow() && |t.stack| > 0 && t.stack == s.stack + [t.Top()] && EntryFor(types, i, s.Top().level, t.Top())
            else t.stack == s.stack && (s.NoOverflow() ==> NoneSuits(types, i, s.Top().level, MAX_DEPTH + 1))
  {
    AtIs(base, types, i);
    AtStep(base, types, i);
    var s := At(base, types, i);
    hide At, Run, StatusOk, StackOk, Step, FsiIsRtl, NextLevel, Suits, NoneSuits, IsolateCount;
    NextSuits(types, i, s.Top().level);
    if IsEmbedding(types[i]) {
      SameNext(types[i], s.Top().level, FsiIsRtl(types, i));
    }
  }

  ghost predicate StackIsFor(base: Level, types: seq<BidiClass>, k: nat)
    requires 0 <= base <= 1 && k <= |types|
  {
    Earlier(types, k);
    var open, s := OpenInitiators(types, k), At(base, types, k);
    StackFor(base, types, open, s.stack) && (s.NoOverflow() <==> |s.stack| == |open| + 1)
  }

  lemma StackGrows(base: Level, types: seq<BidiClass>, open: seq<nat>, i: nat, stack: seq<Entry>, e: Entry)
    requires i < |types| && IsInitiator(types[i]) && Listed(types, |types|, open) && StackFor(base, types, open, stack)
    requires |stack| == |open| + 1 && EntryFor(types, i, TopEntry(stack).level, e)
    ensures Listed(types, |types|, open + [i]) && StackFor(base, types, open + [i], stack + [e])
  {
    hide EntryFor, NoneSuits;
    var next, longer := open + [i], stack + [e];
    forall m: nat | m < |longer| - 1 ensures EntryAt(types, next, longer, m) {
      if m < |stack| - 1 {
        assert EntryAt(types, open, stack, m);
      }
    }
  }

  lemma StackStays(base: Level, types: seq<BidiClass>, open: seq<nat>, i: nat, stack: seq<Entry>)
    requires i < |types| && IsInitiator(types[i]) && Listed(types, |types|, open) && StackFor(base, types, open, stack)
    requires |stack| == |open| + 1 ==> NoneSuits(types, i, TopEntry(stack).level, MAX_DEPTH + 1)
    ensures Listed(types, |types|, open + [i]) && StackFor(base, types, open + [i], stack)
  {
    hide EntryFor, NoneSuits;
    var next := open + [i];
    forall m: nat | m < |stack| - 1 ensures EntryAt(types, next, stack, m) {
      assert EntryAt(types, open, stack, m);
    }
  }

  lemma StackAfterInitiator(base: Level, types: seq<BidiClass>, i: nat)
    requires 0 <= base <= 1 && i < |types| && IsInitiator(types[i]) && StackIsFor(base, types, i)
    ensures Listed(types, |types|, OpenInitiators(types, i) + [i])
    ensures var open, t := OpenInitiators(types, i) + [i], At(base, types, i + 1);
            StackFor(base, types, open, t.stack) && (t.NoOverflow() <==> |t.stack| == |open| + 1)
  {
    var open, s, t := OpenInitiators(types, i), At(base, types, i), At(base, types, i + 1);
    InitiatorPushes(base, types, i);
    Earlier(types, i);
    assert StackFor(base, types, open, s.stack);
    hide At, Run, StatusOk, StackOk, EntryFor, NoneSuits, StackFor, OpenInitiators;
    if t.NoOverflow() {
      StackGrows(base, types, open, i, s.stack, t.Top());
    } else {
      StackStays(base, types, open, i, s.stack);
      StackIsNoTaller(base, types, open, s.stack);
    }
  }

  lemma StackIsNoTaller(base: Level, t: seq<BidiClass>, open: seq<nat>, stack: seq<Entry>)
    requires Listed(t, |t|, open) && StackFor(base, t, open, stack)
    ensures 1 <= |stack| <= |open| + 1
  {
  }

  /** The stack before `k` is determined by the initiators that are open there. */
  lemma {:induction false} StackOfOpenInitiators(base: Level, types: seq<BidiClass>, k: nat)
    requires 0 <= base <= 1 && k <= |types|
    ensures StackIsFor(base, types, k)
    decreases k
  {
    hide *;
    StatusOfLastOpen(base, types, k);
    DecidedBy(base, types, k);
    var open := OpenInitiators(types, k);
    if open == [] {
      StackOfNone(base, types, k);
    } else {
      var i := open[|open| - 1];
      LastIsInitiator(types, k);
      StackOfOpenInitiators(base, types, i);
      StackAfterInitiator(base, types, i);
      ListAtInitiator(types, k, |open| - 1);
      assert open == OpenInitiators(types, i) + [i];
      StackOf(base, types, k);
    }
  }

  lemma StackOf(base: Level, types: seq<BidiClass>, k: nat)
    requires 0 <= base <= 1 && k <= |types| && Listed(types, |types|, OpenInitiators(types, k))
    requires var open, s := OpenInitiators(types, k), At(base, types, k);
             StackFor(base, types, open, s.stack) && (s.NoOverflow() <==> |s.stack| == |open| + 1)
    ensures StackIsFor(base, types, k)
  {
    hide At, Run, StatusOk, StackOk, StackFor;
  }

  lemma StackOfNone(base: Level, types: seq<BidiClass>, k: nat)
    requires 0 <= base <= 1 && k <= |types| && OpenInitiators(types, k) == [] && At(base, types, k) == Initial(base)
    ensures StackIsFor(base, types, k)
  {
    hide At, Run, StatusOk, StackOk, OpenInitiators;
    Earlier(types, k);
  }
}
