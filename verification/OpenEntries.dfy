/** Rules X1-X8 in terms of the text: the status before a character is decided by the initiators that are
    open there by BD9 and BD11. */
module OpenEntries {
  import opened Options
  import opened BidiTypes
  import opened LevelStacks
  import opened Explicit
  import opened ExplicitFacts
  import opened IsolateLevels
  import opened Embeddings

  // ----- what closing undoes -----

  lemma PopsPushed(stack: seq<Entry>, e: Entry)
    ensures PopEntry(stack + [e]) == stack && TopEntry(stack + [e]) == e
    ensures PopIsolate(stack + [e]) == if e.isolate then Some(stack) else PopIsolate(stack)
  {
    assert (stack + [e])[..|stack|] == stack;
  }

  lemma PdfUndoesEmbedding(s: Status, bc: BidiClass)
    requires s.stack != [] && s.Top().level <= MAX_DEPTH && |s.stack| < UAX_SLOTS
    ensures OpenEmbedding(UAX_SLOTS, s, bc).stack != [] && CloseEmbedding(OpenEmbedding(UAX_SLOTS, s, bc)) == s
  {
    var next := NextLevel(bc, s.Top().level, false);
    hide NextLevel;
    if next.Some? {
      PopsPushed(s.stack, Entry(next.value, InitiatorOverride(bc), false));
    }
  }

  lemma PdfSparesIsolate(s: Status, bc: BidiClass, fsiRtl: bool)
    requires s.stack != [] && s.Top().level <= MAX_DEPTH && |s.stack| < UAX_SLOTS
    ensures var t := OpenIsolate(UAX_SLOTS, s, bc, fsiRtl); t.stack != [] && CloseEmbedding(t) == t
  {
    hide NextLevel;
  }

  lemma PdiUndoesIsolate(s: Status, bc: BidiClass, fsiRtl: bool)
    requires s.stack != [] && s.Top().level <= MAX_DEPTH && |s.stack| < UAX_SLOTS
    ensures CloseIsolate(OpenIsolate(UAX_SLOTS, s, bc, fsiRtl)) == Some(s)
    ensures var t := OpenIsolate(UAX_SLOTS, s, bc, fsiRtl); t.overflowIsolate > 0 || t.validIsolate > 0
  {
    var next := NextLevel(bc, s.Top().level, fsiRtl);
    hide NextLevel, PopIsolate;
    if next.Some? {
      PopsPushed(s.stack, Entry(next.value, NoOverride, true));
    }
  }

  lemma PdiIgnoresEmbedding(s: Status, bc: BidiClass)
    requires s.stack != [] && s.Top().level <= MAX_DEPTH && |s.stack| < UAX_SLOTS
    ensures var t := OpenEmbedding(UAX_SLOTS, s, bc); t.overflowIsolate == s.overflowIsolate && t.validIsolate == s.validIsolate
    ensures s.overflowIsolate > 0 || s.validIsolate > 0 ==> CloseIsolate(OpenEmbedding(UAX_SLOTS, s, bc)) == CloseIsolate(s)
  {
    hide NextLevel, PopIsolate;
    var next := NextLevel(bc, s.Top().level, false);
    if next.Some? {
      PopsPushed(s.stack, Entry(next.value, InitiatorOverride(bc), false));
    }
  }

  // ----- the status before a character -----

  lemma AtIs(base: Level, types: seq<BidiClass>, k: nat)
    requires 0 <= base <= 1 && k < |types|
    ensures var s, t := At(base, types, k), At(base, types, k + 1);
            && s.stack != [] && s.Top().level <= MAX_DEPTH && |s.stack| < UAX_SLOTS
            && (IsEmbedding(types[k]) ==> t == OpenEmbedding(UAX_SLOTS, s, types[k]))
            && (IsIsoInit(types[k]) ==> t == OpenIsolate(UAX_SLOTS, s, types[k], FsiIsRtl(types, k)))
            && (types[k] == PDI ==> Some(t) == CloseIsolate(s))
            && (types[k] == PDF ==> t == CloseEmbedding(s))
            && (!IsInitiator(types[k]) && types[k] != PDI && types[k] != PDF ==> t == s)
  {
    AtStep(base, types, k);
    StepCases(UAX_SLOTS, At(base, types, k), types[k], FsiIsRtl(types, k));
    hide At, Step, OpenEmbedding, OpenIsolate, CloseIsolate, CloseEmbedding, FsiIsRtl, Run, StatusOk, StackOk;
  }

  /** The status after the last of these initiators, or the initial one. */
  ghost function After(base: Level, types: seq<BidiClass>, open: seq<nat>): Status
    requires 0 <= base <= 1 && Listed(types, |types|, open)
  {
    if open == [] then Initial(base) else At(base, types, open[|open| - 1] + 1)
  }

  /** Every initiator of the list was met in the status after the one before it. */
  ghost predicate Chained(base: Level, types: seq<BidiClass>, open: seq<nat>)
    requires 0 <= base <= 1 && Listed(types, |types|, open)
  {
    forall m: nat :: m < |open| ==> MetAfter(base, types, open, m)
  }

  ghost predicate MetAfter(base: Level, types: seq<BidiClass>, open: seq<nat>, m: nat)
    requires 0 <= base <= 1 && Listed(types, |types|, open) && m < |open|
  {
    At(base, types, open[m]) == After(base, types, open[..m])
  }

  lemma Earlier(t: seq<BidiClass>, k: nat)
    requires k <= |t|
    ensures Listed(t, |t|, OpenInitiators(t, k))
  {
  }

  lemma MetAt(base: Level, types: seq<BidiClass>, open: seq<nat>, m: nat)
    requires 0 <= base <= 1 && Listed(types, |types|, open) && Chained(base, types, open) && 0 < m < |open|
    ensures open[m - 1] < |types| && open[m] < |types| && IsInitiator(types[open[m]])
    ensures At(base, types, open[m]) == At(base, types, open[m - 1] + 1)
  {
    hide At, Run, StatusOk, StackOk;
    assert MetAfter(base, types, open, m);
  }

  lemma PdiPassesEmbedding(base: Level, types: seq<BidiClass>, i: nat, j: nat)
    requires 0 <= base <= 1 && i < |types| && j < |types| && IsEmbedding(types[j])
    requires At(base, types, j) == At(base, types, i + 1)
    requires var t := At(base, types, i + 1); t.overflowIsolate > 0 || t.validIsolate > 0
    ensures CloseIsolate(At(base, types, j + 1)) == CloseIsolate(At(base, types, i + 1))
    ensures var t := At(base, types, j + 1); t.overflowIsolate > 0 || t.validIsolate > 0
  {
    AtIs(base, types, j);
    hide *;
    PdiIgnoresEmbedding(At(base, types, j), types[j]);
  }

  lemma PdiMeetsIsolate(base: Level, types: seq<BidiClass>, i: nat)
    requires 0 <= base <= 1 && i < |types| && IsIsoInit(types[i])
    ensures CloseIsolate(At(base, types, i + 1)) == Some(At(base, types, i))
    ensures var t := At(base, types, i + 1); t.overflowIsolate > 0 || t.validIsolate > 0
  {
    AtIs(base, types, i);
    hide *;
    PdiUndoesIsolate(At(base, types, i), types[i], FsiIsRtl(types, i));
  }

  /** Embeddings opened after the isolate at index `p` do not matter to its PDI. */
  lemma {:induction false} PdiFromLast(base: Level, types: seq<BidiClass>, open: seq<nat>, p: nat, m: nat)
    requires 0 <= base <= 1 && Listed(types, |types|, open) && Chained(base, types, open) && p <= m < |open|
    requires IsIsoInit(types[open[p]]) && forall n :: p < n < |open| ==> !IsIsoInit(types[open[n]])
    ensures CloseIsolate(At(base, types, open[m] + 1)) == Some(At(base, types, open[p]))
    ensures var t := At(base, types, open[m] + 1); t.overflowIsolate > 0 || t.validIsolate > 0
    decreases m
  {
    hide At, CloseIsolate, Chained, Listed, Run, StatusOk, StackOk;
    if m == p {
      IsListed(types, |types|, open, p);
      PdiMeetsIsolate(base, types, open[p]);
    } else {
      PdiFromLast(base, types, open, p, m - 1);
      MetAt(base, types, open, m);
      PdiPassesEmbedding(base, types, open[m - 1], open[m]);
    }
  }

  /** Without an open isolate a PDI does nothing. */
  lemma {:induction false} NothingForPdi(base: Level, types: seq<BidiClass>, open: seq<nat>, m: nat)
    requires 0 <= base <= 1 && Listed(types, |types|, open) && Chained(base, types, open) && m <= |open|
    requires forall n :: 0 <= n < |open| ==> !IsIsoInit(types[open[n]])
    ensures var t := After(base, types, open[..m]); t.overflowIsolate == 0 && t.validIsolate == 0
    decreases m
  {
    if m > 0 {
      AtIs(base, types, open[m - 1]);
      assert MetAfter(base, types, open, m - 1) && !IsIsoInit(types[open[m - 1]]);
      hide At, OpenEmbedding, Chained, Run, StatusOk, StackOk;
      NothingForPdi(base, types, open, m - 1);
      PdiIgnoresEmbedding(At(base, types, open[m - 1]), types[open[m - 1]]);
    }
  }

  // ----- the last open initiator decides -----

  /** The list at an open initiator is the part of the present list before it. */
  lemma ListAtInitiator(t: seq<BidiClass>, k: nat, m: nat)
    requires k <= |t| && m < |OpenInitiators(t, k)|
    ensures OpenInitiators(t, k)[m] < k && OpenInitiators(t, OpenInitiators(t, k)[m]) == OpenInitiators(t, k)[..m]
  {
    var open := OpenInitiators(t, k);
    hide OpenInitiators, Listed;
    InListed(t, k, m);
    PrefixStays(t, open[m], k);
    InOrderAt(t, k, m, |OpenInitiators(t, open[m])|);
  }

  /** The status before `k` is the one right after the last initiator that is open at `k`. */
  ghost predicate LastOpenDecides(base: Level, types: seq<BidiClass>, k: nat)
    requires 0 <= base <= 1 && k <= |types|
  {
    Earlier(types, k);
    At(base, types, k) == After(base, types, OpenInitiators(types, k))
  }

  lemma AllMetAfter(base: Level, types: seq<BidiClass>, k: nat)
    requires 0 <= base <= 1 && k <= |types|
    requires forall j: nat :: j < k ==> LastOpenDecides(base, types, j)
    ensures Listed(types, |types|, OpenInitiators(types, k)) && Chained(base, types, OpenInitiators(types, k))
  {
    Earlier(types, k);
    var open := OpenInitiators(types, k);
    hide At, OpenInitiators, Listed, Run, StatusOk, StackOk;
    forall m: nat | m < |open| ensures MetAfter(base, types, open, m) {
      ListAtInitiator(types, k, m);
      assert LastOpenDecides(base, types, open[m]);
    }
  }

  lemma PdfMeets(base: Level, types: seq<BidiClass>, i: nat)
    requires 0 <= base <= 1 && i < |types| && IsInitiator(types[i])
    ensures At(base, types, i + 1).stack != []
    ensures CloseEmbedding(At(base, types, i + 1)) == if IsEmbedding(types[i]) then At(base, types, i) else At(base, types, i + 1)
  {
    AtIs(base, types, i);
    hide At, OpenEmbedding, OpenIsolate, CloseIsolate, CloseEmbedding, FsiIsRtl, Run, StatusOk, StackOk;
    if IsEmbedding(types[i]) {
      PdfUndoesEmbedding(At(base, types, i), types[i]);
    } else {
      PdfSparesIsolate(At(base, types, i), types[i], FsiIsRtl(types, i));
    }
  }

  lemma AtPdf(base: Level, types: seq<BidiClass>, k: nat)
    requires 0 <= base <= 1 && k < |types| && types[k] == PDF
    ensures At(base, types, k).stack != [] && At(base, types, k + 1) == CloseEmbedding(At(base, types, k))
  {
    AtIs(base, types, k);
    hide *;
  }

  lemma PdfCloses(t: seq<BidiClass>, k: nat)
    requires k < |t| && t[k] == PDF && OpenInitiators(t, k) != []
    ensures var i := OpenInitiators(t, k)[|OpenInitiators(t, k)| - 1];
            i < k && IsInitiator(t[i]) && OpenInitiators(t, k + 1) == OpenInitiators(t, if IsEmbedding(t[i]) then i else k)
  {
    var open := OpenInitiators(t, k);
    LastIsInitiator(t, k);
    hide *;
    OneMore(t, k);
    PdfReaches(t, k, open);
    ListAtInitiator(t, k, |open| - 1);
  }

  /** The last open initiator decides by the status it leaves behind. */
  lemma DecidedBy(base: Level, types: seq<BidiClass>, k: nat)
    requires 0 <= base <= 1 && k <= |types|
    ensures LastOpenDecides(base, types, k) <==>
              var open := OpenInitiators(types, k);
              At(base, types, k) == if open == [] then Initial(base) else At(base, types, open[|open| - 1] + 1)
  {
    hide At, Run, StatusOk, StackOk, OpenInitiators;
    Earlier(types, k);
  }

  lemma PdfStep(base: Level, types: seq<BidiClass>, k: nat)
    requires 0 <= base <= 1 && k < |types| && types[k] == PDF
    requires forall j: nat :: j <= k ==> LastOpenDecides(base, types, j)
    ensures LastOpenDecides(base, types, k + 1)
  {
    hide *;
    assert LastOpenDecides(base, types, k);
    DecidedBy(base, types, k);
    DecidedBy(base, types, k + 1);
    AtPdf(base, types, k);
    var open := OpenInitiators(types, k);
    if open == [] {
      OneMore(types, k);
      NothingToClose(types, k);
      InitialStays(base);
    } else {
      var i := open[|open| - 1];
      PdfCloses(types, k);
      PdfMeets(base, types, i);
      assert LastOpenDecides(base, types, i);
      DecidedBy(base, types, i);
    }
  }

  lemma InitialStays(base: Level)
    ensures Initial(base).stack != [] && CloseEmbedding(Initial(base)) == Initial(base)
  {
  }

  lemma LastIsInitiator(t: seq<BidiClass>, k: nat)
    requires k <= |t| && OpenInitiators(t, k) != []
    ensures var i := OpenInitiators(t, k)[|OpenInitiators(t, k)| - 1]; i < k && IsInitiator(t[i])
  {
    hide OpenInitiators;
  }

  lemma PdiStep(base: Level, types: seq<BidiClass>, k: nat)
    requires 0 <= base <= 1 && k < |types| && types[k] == PDI
    requires forall j: nat :: j <= k ==> LastOpenDecides(base, types, j)
    ensures LastOpenDecides(base, types, k + 1)
  {
    var open := OpenInitiators(types, k);
    assert LastOpenDecides(base, types, k);
    Earlier(types, k);
    AtIs(base, types, k);
    OneMore(types, k);
    PdiReaches(types, k, open);
    AllMetAfter(base, types, k);
    hide OpenInitiators, At, OpenEmbedding, OpenIsolate, Reached, FsiIsRtl, Chained, CloseIsolate, Listed, Run, StatusOk, StackOk;
    var p := LastIsolate(types, k, open);
    if p < 0 {
      IdlePdi(base, types, k);
    } else {
      var i := open[p];
      ListAtInitiator(types, k, p);
      assert LastOpenDecides(base, types, i);
      ClosingPdi(base, types, k);
    }
  }

  lemma IdlePdi(base: Level, types: seq<BidiClass>, k: nat)
    requires 0 <= base <= 1 && k < |types| && types[k] == PDI && LastIsolate(types, k, OpenInitiators(types, k)) < 0
    requires Listed(types, |types|, OpenInitiators(types, k)) && Chained(base, types, OpenInitiators(types, k))
    requires LastOpenDecides(base, types, k)
    ensures At(base, types, k + 1) == At(base, types, k)
  {
    var open := OpenInitiators(types, k);
    AtIs(base, types, k);
    hide OpenInitiators, At, Chained, LastIsolate, OpenEmbedding, OpenIsolate, FsiIsRtl, CloseEmbedding, Run, StatusOk, StackOk;
    forall n | 0 <= n < |open| ensures !IsIsoInit(types[open[n]]) {
      NoIsolateAfter(types, k, open, n);
    }
    NothingForPdi(base, types, open, |open|);
    assert open[..|open|] == open;
  }

  lemma ClosingPdi(base: Level, types: seq<BidiClass>, k: nat)
    requires 0 <= base <= 1 && k < |types| && types[k] == PDI && LastIsolate(types, k, OpenInitiators(types, k)) >= 0
    requires Listed(types, |types|, OpenInitiators(types, k)) && Chained(base, types, OpenInitiators(types, k))
    requires LastOpenDecides(base, types, k)
    ensures At(base, types, k + 1) == At(base, types, OpenInitiators(types, k)[LastIsolate(types, k, OpenInitiators(types, k))])
  {
    var open := OpenInitiators(types, k);
    var p := LastIsolate(types, k, open);
    AtIs(base, types, k);
    hide OpenInitiators, At, Chained, LastIsolate, OpenEmbedding, OpenIsolate, FsiIsRtl, CloseEmbedding, CloseIsolate, Run, StatusOk, StackOk;
    forall n | p < n < |open| ensures !IsIsoInit(types[open[n]]) {
      NoIsolateAfter(types, k, open, n);
    }
    PdiFromLast(base, types, open, p, |open| - 1);
  }

  lemma OtherStep(base: Level, types: seq<BidiClass>, k: nat)
    requires 0 <= base <= 1 && k < |types| && types[k] != PDI && types[k] != PDF
    requires LastOpenDecides(base, types, k)
    ensures LastOpenDecides(base, types, k + 1)
  {
    AtIs(base, types, k);
    OneMore(types, k);
    hide OpenInitiators, At, OpenEmbedding, OpenIsolate, CloseIsolate, CloseEmbedding, FsiIsRtl, Run, StatusOk, StackOk;
  }

  lemma {:induction false} StatusOfLastOpen(base: Level, types: seq<BidiClass>, k: nat)
    requires 0 <= base <= 1 && k <= |types|
    ensures LastOpenDecides(base, types, k)
    decreases k
  {
    hide *;
    if k == 0 {
      NothingOpenYet(base, types);
    } else {
      forall j: nat | j < k ensures LastOpenDecides(base, types, j) {
        StatusOfLastOpen(base, types, j);
      }
      var last := k - 1;
      if types[last] == PDF {
        PdfStep(base, types, last);
      } else if types[last] == PDI {
        PdiStep(base, types, last);
      } else {
        OtherStep(base, types, last);
      }
    }
  }

  lemma NothingOpenYet(base: Level, types: seq<BidiClass>)
    requires 0 <= base <= 1
    ensures LastOpenDecides(base, types, 0)
  {
  }
}
