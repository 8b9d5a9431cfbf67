/** BD13: isolating run sequences join a run that ends in an isolate initiator to the run that begins
    with the matching PDI (BD9). The source never looks for matching PDIs when it joins runs, and looks for
    initiators after overrides have been applied; this says on which texts it meets BD13 all the same. */
module IsolatingRuns {
  import opened Options
  import opened BidiTypes
  import opened Isolates
  import opened IsolateLevels
  import opened Runs
  import opened RunFacts
  import opened Chains

  // ----- the search for the next run, given which run should follow -----

  /** For every run the run that should follow it in its sequence. */
  type Nexts = seq<Option<nat>>

  ghost predicate Candidates(text: Text, a: nat, x: nat)
    requires TextOk(text) && a < |text.runs|
  {
    x < |text.runs| && text.runs[x].level == text.runs[a].level && StartsWithPdi(text, x)
  }

  ghost predicate NextOk(text: Text, next: Option<nat>, a: nat)
    requires TextOk(text) && a < |text.runs|
  {
    match next
    case Some(b) =>
      && a < b && EndsInInitiator(text, a) && Candidates(text, a, b)
      && forall x: nat :: a < x < b ==> !Candidates(text, a, x)
    case None =>
      EndsInInitiator(text, a) ==> forall x: nat :: a < x ==> !Candidates(text, a, x)
  }

  ghost predicate NextsOk(text: Text, nx: Nexts)
    requires TextOk(text)
  {
    && |nx| == |text.runs|
    && (forall a: nat :: a < |nx| ==> NextOk(text, nx[a], a))
    && (forall a: nat, b: nat :: a < b < |nx| && nx[a].Some? ==> nx[a] != nx[b])
  }

  function Follow(nx: Nexts, a: nat): seq<nat>
    decreases |nx| - a
  {
    if a < |nx| && nx[a].Some? && a < nx[a].value < |nx|
    then [nx[a].value] + Follow(nx, nx[a].value) else []
  }

  lemma {:induction false} ChainSkips(text: Text, taken: set<nat>, a: nat, idx: nat, to: nat)
    requires TextOk(text) && a < |text.runs| && idx <= to <= |text.runs|
    requires forall x: nat :: idx <= x < to ==> !Candidates(text, a, x)
    ensures Chain(text, taken, text.runs[a].level, idx) == Chain(text, taken, text.runs[a].level, to)
    decreases |text.runs| - idx
  {
    if idx < to {
      assert !Candidates(text, a, idx);
      ChainSkips(text, taken, a, idx + 1, to);
    }
  }

  /** A run from `k` on that has been assigned has been assigned after the run it follows. */
  ghost predicate InOrder(nx: Nexts, taken: set<nat>, k: nat) {
    forall a: nat, b: nat :: a < |nx| && nx[a] == Some(b) && k <= b && b in taken ==> a in taken
  }

  lemma {:induction false} ChainFollows(text: Text, nx: Nexts, taken: set<nat>, k: nat, a: nat)
    requires TextOk(text) && NextsOk(text, nx) && InOrder(nx, taken, k) && k <= a < |text.runs| && a !in taken
    ensures (if EndsInInitiator(text, a) then Chain(text, taken, text.runs[a].level, a + 1) else []) == Follow(nx, a)
    decreases |text.runs| - a
  {
    hide EndsInInitiator, StartsWithPdi;
    assert NextOk(text, nx[a], a);
    match nx[a]
    case None =>
      if EndsInInitiator(text, a) {
        ChainSkips(text, taken, a, a + 1, |text.runs|);
      }
    case Some(b) =>
      ChainSkips(text, taken, a, a + 1, b);
      assert Candidates(text, a, b) && b !in taken;
      ChainFollows(text, nx, taken, k, b);
  }

  lemma {:induction false} FollowMembers(nx: Nexts, a: nat, b: nat)
    requires b in Follow(nx, a)
    ensures exists c: nat :: c < |nx| && nx[c] == Some(b) && (c == a || c in Follow(nx, a))
    decreases |nx| - a
  {
    var c := nx[a].value;
    if b != c {
      FollowMembers(nx, c, b);
      var d: nat :| d < |nx| && nx[d] == Some(b) && (d == c || d in Follow(nx, c));
      assert d in Follow(nx, a);
    }
  }

  ghost predicate AllFollow(nx: Nexts, ss: seq<seq<nat>>) {
    forall i :: 0 <= i < |ss| ==> ss[i] != [] && ss[i] == [ss[i][0]] + Follow(nx, ss[i][0])
  }

  lemma {:induction false} SequencesFollow(text: Text, nx: Nexts, taken: set<nat>, k: nat)
    requires TextOk(text) && NextsOk(text, nx) && InOrder(nx, taken, k)
    ensures AllFollow(nx, Sequences(text, taken, k))
    decreases |text.runs| - k
  {
    if k < |text.runs| {
      if k in taken {
        SequencesFollow(text, nx, taken, k + 1);
      } else {
        var s := SequenceFrom(text, taken, k);
        ChainFollows(text, nx, taken, k, k);
        assert s == [k] + Follow(nx, k);
        StaysInOrder(text, nx, taken, k);
        SequencesFollow(text, nx, taken + AsSet(s), k + 1);
      }
    }
  }

  lemma StaysInOrder(text: Text, nx: Nexts, taken: set<nat>, k: nat)
    requires TextOk(text) && NextsOk(text, nx) && InOrder(nx, taken, k) && k < |text.runs|
    ensures InOrder(nx, taken + AsSet([k] + Follow(nx, k)), k + 1)
  {
    var s := [k] + Follow(nx, k);
    forall a: nat, b: nat | a < |nx| && nx[a] == Some(b) && k + 1 <= b && b in taken + AsSet(s)
      ensures a in taken + AsSet(s)
    {
      if b !in taken {
        assert b in Follow(nx, k);
        FollowMembers(nx, k, b);
        var c: nat :| c < |nx| && nx[c] == Some(b) && (c == k || c in Follow(nx, k));
        assert a == c;
        assert c in s;
      }
    }
  }

  /** Along a sequence every run is followed by its next run, and the last one has none. */
  lemma {:induction false} FollowSteps(nx: Nexts, a: nat, s: seq<nat>, m: nat)
    requires a < |nx| && s == [a] + Follow(nx, a) && m < |s|
    requires forall x: nat :: x < |nx| && nx[x].Some? ==> x < nx[x].value < |nx|
    ensures s[m] < |nx| && nx[s[m]] == if m + 1 < |s| then Some(s[m + 1]) else None
    decreases m
  {
    if m > 0 {
      FollowSteps(nx, s[1], s[1..], m - 1);
    }
  }

  // ----- the runs of the text -----

  ghost predicate HasKept(levels: seq<Level>, start: nat, end: nat) {
    exists p: nat :: start <= p < end <= |levels| && !Removed(levels[p])
  }

  /** Every run has a character that was not removed. */
  ghost predicate NoneEmpty(levels: seq<Level>, runs: seq<LevelRun>) {
    forall a: nat :: a < |runs| ==> HasKept(levels, runs[a].start, runs[a].end)
  }

  lemma {:induction false} SpanHasKept(types: seq<BidiClass>, levels: seq<Level>, i: nat)
    requires i <= |types| == |levels| && !Removed(FirstLevel(levels, i))
    ensures HasKept(levels, i, SpanEnd(types, levels, i, NO_LEVEL))
    decreases |levels| - i
  {
    if Removed(levels[i]) {
      SpanHasKept(types, levels, i + 1);
    } else {
      assert i < SpanEnd(types, levels, i, NO_LEVEL);
    }
  }

  lemma {:induction false} RunsHaveKept(types: seq<BidiClass>, levels: seq<Level>, start: nat)
    requires start <= |types| == |levels|
    ensures NoneEmpty(levels, RunsFrom(types, levels, start))
    decreases |types| - start
  {
    if start < |types| {
      SpanEndIsSpan(types, levels, start, start, NO_LEVEL);
      RunsHaveKept(types, levels, SpanEnd(types, levels, start, NO_LEVEL));
      if !Removed(FirstLevel(levels, start)) {
        SpanHasKept(types, levels, start);
      }
      hide HasKept;
    }
  }

  /** `text` is the text after X1-X9, cut into runs. */
  ghost predicate IsTextOf(base: Level, types: seq<BidiClass>, text: Text)
    requires 0 <= base <= 1
  {
    && |text.types| == |text.levels| == |types|
    && Tiled(text, 0) && TextOk(text) && NoneEmpty(text.levels, text.runs)
    && forall k: nat :: k < |types| ==> text.levels[k] == LevelOf(base, types, k) && text.types[k] == ClassOf(base, types, k)
  }

  /** `p` is the first character of run `x` that was not removed. */
  ghost predicate FirstKept(text: Text, x: nat, p: nat) {
    && x < |text.runs| && |text.levels| == |text.types|
    && text.runs[x].start <= p < text.runs[x].end <= |text.types|
    && !Removed(text.levels[p])
    && forall q :: text.runs[x].start <= q < p ==> Removed(text.levels[q])
  }

  lemma {:induction false} SignificantIsFirst(types: seq<BidiClass>, levels: seq<Level>, start: nat, end: nat, p: nat)
    requires start <= p < end <= |types| == |levels| && !Removed(levels[p])
    requires forall q :: start <= q < p ==> Removed(levels[q])
    ensures FirstSignificant(types, levels, start, end) == Some(types[p])
    decreases end - start
  {
    if start < p {
      SignificantIsFirst(types, levels, start + 1, end, p);
    }
  }

  lemma {:induction false} SignificantAt(types: seq<BidiClass>, levels: seq<Level>, start: nat, end: nat) returns (p: nat)
    requires start <= end <= |types| == |levels| && FirstSignificant(types, levels, start, end).Some?
    ensures start <= p < end && !Removed(levels[p]) && FirstSignificant(types, levels, start, end) == Some(types[p])
    ensures forall q :: start <= q < p ==> Removed(levels[q])
    decreases end - start
  {
    if Removed(levels[start]) {
      p := SignificantAt(types, levels, start + 1, end);
    } else {
      p := start;
    }
  }

  /** A candidate begins with a PDI of the text, at the level of the run. */
  lemma CandidateBegins(text: Text, a: nat, x: nat) returns (p: nat)
    requires Tiled(text, 0) && TextOk(text) && a < |text.runs| && Candidates(text, a, x)
    ensures FirstKept(text, x, p) && text.types[p] == PDI && text.levels[p] == text.runs[a].level
  {
    assert RunInText(text, x);
    p := SignificantAt(text.types, text.levels, text.runs[x].start, text.runs[x].end);
  }

  lemma RunLevelAt(text: Text, a: nat, p: nat)
    requires Tiled(text, 0) && a < |text.runs| && text.runs[a].start <= p < text.runs[a].end
    ensures text.runs[a].end <= |text.types| == |text.levels|
    ensures !Removed(text.levels[p]) ==> text.levels[p] == text.runs[a].level
  {
    assert IsSpan(text.types, text.levels, text.runs[a].start, text.runs[a].end, text.runs[a].level);
  }

  /** The initiator at the end of a run, and its level. */
  lemma InitiatorEnds(base: Level, types: seq<BidiClass>, text: Text, a: nat)
    requires 0 <= base <= 1 && IsTextOf(base, types, text) && a < |text.runs| && EndsInInitiator(text, a)
    ensures var i := text.runs[a].end - 1;
            && i < |types| && IsIsoInit(types[i]) && IsIsoInit(ClassOf(base, types, i)) && text.runs[a].start <= i
            && text.runs[a].level == LevelOf(base, types, i) && text.types[i] == types[i] && !Removed(text.levels[i])
  {
    hide *;
    TextAt(base, types, text, a);
    var i := text.runs[a].end - 1;
    RunLevelAt(text, a, i);
    ControlIsOriginal(base, types, i);
    InitiatorIsKept(ClassOf(base, types, i));
    assert !Removed(text.levels[i]) by { NoLevelIsRemoved(text.levels[i]); }
  }

  lemma NoLevelIsRemoved(level: Level)
    ensures Removed(level) <==> level == NO_LEVEL
  {
  }

  lemma InitiatorIsKept(bc: BidiClass)
    ensures IsIsoInit(bc) ==> IsIsoControl(bc) && !IsRemovedClass(bc)
  {
  }

  lemma TextAt(base: Level, types: seq<BidiClass>, text: Text, a: nat)
    requires 0 <= base <= 1 && IsTextOf(base, types, text) && a < |text.runs|
    ensures Tiled(text, 0) && TextOk(text) && RunInText(text, a) && |text.types| == |text.levels| == |types|
    ensures text.runs[a].start < text.runs[a].end <= |types|
    ensures EndsInInitiator(text, a) <==> IsIsoInit(text.types[text.runs[a].end - 1])
    ensures forall k: nat :: k < |types| ==> text.levels[k] == LevelOf(base, types, k) && text.types[k] == ClassOf(base, types, k)
  {
    hide LevelOf, ClassOf, Tiled;
  }

  /** No paragraph separator but at the end of the text. */
  ghost predicate SeparatorOnlyLast(types: seq<BidiClass>) {
    forall p :: 0 <= p < |types| - 1 ==> types[p] != B
  }

  // ----- BD13 on characters -----

  /** `k` is not in one level run (BD7) with the character before it. */
  ghost predicate BeginsLevelRun(levels: seq<Level>, k: nat) {
    && k < |levels| && !Removed(levels[k])
    && var p := PrevKept(levels, k); p >= 0 ==> levels[p] != levels[k]
  }

  /** The matching PDI of `k` begins a level run. */
  ghost predicate Joins(types: seq<BidiClass>, levels: seq<Level>, k: nat, j: nat) {
    Matches(types, k, j) && BeginsLevelRun(levels, j)
  }

  /** What follows the character `k` in its isolating run sequence: the next character of its level run or,
      when it is the last one there, the matching PDI that begins another level run. The classes are the
      original ones. */
  ghost predicate FollowedBy(types: seq<BidiClass>, levels: seq<Level>, k: nat, next: Option<nat>)
    requires k < |types| == |levels|
  {
    var n := NextKept(levels, k + 1);
    if n < |levels| && levels[n] == levels[k] then next == Some(n)
    else match next
      case Some(j) => Joins(types, levels, k, j)
      case None => forall j: nat :: !Joins(types, levels, k, j)
  }

  /** Where the source leaves BD13, given the classes and levels after X9: an initiator that is directly
      followed, in its level run, by something else than a PDI; or a matched initiator that an override has
      turned into a letter and that ends its level run. */
  ghost predicate Breaks(types: seq<BidiClass>, classes: seq<BidiClass>, levels: seq<Level>, i: nat)
    requires i < |types| == |classes| == |levels|
  {
    var n := NextKept(levels, i + 1);
    && IsIsoInit(types[i]) && n < |types|
    && if classes[i] == types[i] then levels[n] == levels[i] && types[n] != PDI
       else levels[n] != levels[i] && exists j: nat :: Matches(types, i, j)
  }

  ghost predicate Unbroken(types: seq<BidiClass>, classes: seq<BidiClass>, levels: seq<Level>)
    requires |types| == |classes| == |levels|
  {
    forall i: nat :: i < |types| ==> !Breaks(types, classes, levels, i)
  }

  /** The texts the following is about. */
  ghost predicate Plain(base: Level, types: seq<BidiClass>, text: Text)
    requires 0 <= base <= 1
  {
    SeparatorOnlyLast(types) && IsTextOf(base, types, text) && Unbroken(types, text.types, text.levels)
  }

  lemma PlainIs(base: Level, types: seq<BidiClass>, text: Text)
    requires 0 <= base <= 1 && Plain(base, types, text)
    ensures SeparatorOnlyLast(types) && IsTextOf(base, types, text)
    ensures |text.types| == |text.levels| == |types| && Tiled(text, 0) && TextOk(text)
  {
    hide Unbroken, Tiled, TextOk, LevelOf, ClassOf;
  }

  lemma KeptAt(base: Level, types: seq<BidiClass>, text: Text, k: nat)
    requires 0 <= base <= 1 && IsTextOf(base, types, text) && k < |types|
    ensures |text.types| == |text.levels| == |types|
    ensures text.levels[k] == LevelOf(base, types, k) && text.types[k] == ClassOf(base, types, k)
    ensures Removed(text.levels[k]) <==> IsRemovedClass(types[k])
  {
    ControlIsOriginal(base, types, k);
    hide LevelOf, ClassOf, Tiled, TextOk;
  }

  lemma {:induction false} DepthOfRemoved(types: seq<BidiClass>, lo: nat, hi: nat)
    requires lo <= hi <= |types| && forall q :: lo <= q < hi ==> IsRemovedClass(types[q])
    ensures Depth(types, lo, hi) == 0
  {
    if lo < hi {
      DepthOfRemoved(types, lo, hi - 1);
    }
  }

  /** Nothing but removed characters up to `n`: the counter of BD9 has not moved. */
  lemma NothingBetween(base: Level, types: seq<BidiClass>, text: Text, i: nat, n: nat)
    requires 0 <= base <= 1 && IsTextOf(base, types, text) && i < n <= |types|
    requires |text.levels| == |types| && forall q :: i < q < n ==> Removed(text.levels[q])
    ensures Depth(types, i + 1, n) == 0
    ensures IsIsoInit(types[i]) ==> OpenAt(types, i, n)
  {
    hide *;
    forall q: nat | i < q < n ensures IsRemovedClass(types[q]) {
      KeptAt(base, types, text, q);
    }
    DepthOfRemoved(types, i + 1, n);
    RemovedAreNoPdi(types, i, n);
  }

  lemma RemovedAreNoPdi(types: seq<BidiClass>, i: nat, n: nat)
    requires i < n <= |types| && forall q :: i < q < n ==> IsRemovedClass(types[q])
    ensures IsIsoInit(types[i]) ==> OpenAt(types, i, n)
  {
    hide Depth;
  }

  /** While an isolate is open, the first character after its initiator is no PDI. */
  lemma NextInside(base: Level, types: seq<BidiClass>, text: Text, i: nat, p: nat) returns (n: nat)
    requires 0 <= base <= 1 && SeparatorOnlyLast(types) && IsTextOf(base, types, text)
    requires OpenAt(types, i, p) && p < |types| && |text.levels| == |types|
    requires types[p] == PDI ==> OpenAt(types, i, p + 1)
    requires types[p] != B && !Removed(text.levels[p])
    ensures i < n <= p && n == NextKept(text.levels, i + 1) && OpenAt(types, i, n)
    ensures types[n] != PDI && types[n] != B && !Removed(text.levels[n])
  {
    hide *;
    OpenBefore(types, i, p);
    n := NextKept(text.levels, i + 1);
    NextKeptUpTo(text.levels, i, p);
    NothingBetween(base, types, text, i, n);
    FirstIsNoPdi(types, i, n, p);
    if n < p {
      NoSeparatorBefore(types, n, p);
    }
  }

  lemma NextKeptUpTo(levels: seq<Level>, i: nat, p: nat)
    requires i < p < |levels| && !Removed(levels[p])
    ensures var n := NextKept(levels, i + 1);
            i < n <= p && !Removed(levels[n]) && forall q :: i < q < n ==> Removed(levels[q])
  {
  }

  lemma FirstIsNoPdi(types: seq<BidiClass>, i: nat, n: nat, p: nat)
    requires OpenAt(types, i, p) && i < n <= p < |types| && Depth(types, i + 1, n) == 0
    requires types[p] == PDI ==> OpenAt(types, i, p + 1)
    ensures types[n] != PDI
  {
    hide Depth;
  }

  lemma NoSeparatorBefore(types: seq<BidiClass>, q: nat, j: nat)
    requires SeparatorOnlyLast(types) && q < j < |types|
    ensures types[q] != B
  {
  }

  /** Inside an isolate all levels are above that of its initiator, unless the source breaks BD13 there. */
  lemma InsideIsHigher(base: Level, types: seq<BidiClass>, text: Text, i: nat, p: nat)
    requires 0 <= base <= 1 && Plain(base, types, text)
    requires OpenAt(types, i, p) && p < |types| && |text.levels| == |text.types| == |types|
    requires types[p] == PDI ==> OpenAt(types, i, p + 1)
    requires types[p] != B && !Removed(text.levels[p])
    requires i < |types| && text.types[i] == types[i]
    ensures text.levels[p] > text.levels[i]
  {
    assert IsIsoInit(types[i]) && i < p by { OpenBefore(types, i, p); }
    assert !Breaks(types, text.types, text.levels, i);
    hide *;
    PlainIs(base, types, text);
    KeptAt(base, types, text, i);
    KeptAt(base, types, text, p);
    LevelInside(base, types, i, p);
    if !Opened(base, types, i) {
      var n := NextInside(base, types, text, i, p);
      KeptAt(base, types, text, n);
      LevelInside(base, types, i, n);
      ThenBreaks(types, text.types, text.levels, i);
    }
  }

  lemma ThenBreaks(types: seq<BidiClass>, classes: seq<BidiClass>, levels: seq<Level>, i: nat)
    requires i < |types| == |classes| == |levels| && IsIsoInit(types[i]) && classes[i] == types[i]
    requires var n := NextKept(levels, i + 1); n < |types| && levels[n] == levels[i] && types[n] != PDI
    ensures Breaks(types, classes, levels, i)
  {
  }

  // ----- the run that follows -----

  /** As long as the isolate is open, no run of its level begins with a PDI. */
  lemma NotACandidate(base: Level, types: seq<BidiClass>, text: Text, a: nat, x: nat, limit: nat)
    requires 0 <= base <= 1 && Plain(base, types, text)
    requires a < x < |text.runs| && EndsInInitiator(text, a) && text.runs[x].end <= limit <= |types|
    requires limit > text.runs[a].end - 1 ==> OpenAt(types, text.runs[a].end - 1, limit)
    ensures !Candidates(text, a, x)
  {
    hide *;
    PlainIs(base, types, text);
    TextAt(base, types, text, a);
    InitiatorEnds(base, types, text, a);
    RunsOrdered(text, 0, a, x);
    var i := text.runs[a].end - 1;
    if Candidates(text, a, x) {
      var p := CandidateBegins(text, a, x);
      KeptInRun(text, x, p);
      ControlIsOriginal(base, types, p);
      OpenEarlier(types, i, limit, p);
      OpenEarlier(types, i, limit, p + 1);
      InsideIsHigher(base, types, text, i, p);
    }
  }

  lemma KeptInRun(text: Text, x: nat, p: nat)
    requires FirstKept(text, x, p)
    ensures x < |text.runs| && text.runs[x].start <= p < text.runs[x].end <= |text.types|
    ensures IsIsoControl(PDI) && !IsRemovedClass(PDI)
  {
  }

  lemma RunAfter(text: Text, a: nat, b: nat, j: nat)
    requires Tiled(text, 0) && a < |text.runs| && b < |text.runs| && text.runs[a].end <= j
    requires text.runs[b].start <= j < text.runs[b].end
    ensures a < b && text.runs[a].end <= text.runs[b].start
  {
    assert IsSpan(text.types, text.levels, text.runs[a].start, text.runs[a].end, text.runs[a].level);
    if b < a {
      RunsOrdered(text, 0, b, a);
    } else if a < b {
      RunsOrdered(text, 0, a, b);
    }
  }

  /** The matching PDI begins the run it is in. */
  lemma MatchBeginsRun(base: Level, types: seq<BidiClass>, text: Text, a: nat, j: nat) returns (b: nat)
    requires 0 <= base <= 1 && Plain(base, types, text)
    requires a < |text.runs| && EndsInInitiator(text, a) && Matches(types, text.runs[a].end - 1, j)
    ensures a < b && FirstKept(text, b, j) && text.types[j] == PDI && text.levels[j] == text.runs[a].level
  {
    var i := text.runs[a].end - 1;
    assert types[j] == PDI && i < j < |types| && OpenAt(types, i, j);
    hide *;
    PlainIs(base, types, text);
    TextAt(base, types, text, a);
    InitiatorEnds(base, types, text, a);
    MatchedLikeInitiator(base, types, i, j);
    KeptAt(base, types, text, i);
    KeptAt(base, types, text, j);
    PdiIsKept();
    b := RunAt(text, j);
    RunAfter(text, a, b, j);
    RunLevelAt(text, b, j);
    forall q: nat | text.runs[b].start <= q < j ensures Removed(text.levels[q]) {
      RunLevelAt(text, b, q);
      if !Removed(text.levels[q]) {
        OpenEarlier(types, i, j, q);
        OpenEarlier(types, i, j, q + 1);
        NoSeparatorBefore(types, q, j);
        InsideIsHigher(base, types, text, i, q);
      }
    }
    BeginsRun(text, b, j);
  }

  lemma PdiIsKept()
    ensures IsIsoControl(PDI) && !IsRemovedClass(PDI)
  {
  }

  lemma BeginsRun(text: Text, b: nat, j: nat)
    requires TextOk(text) && b < |text.runs| && text.runs[b].start <= j < text.runs[b].end
    requires j < |text.levels| && !Removed(text.levels[j])
    requires forall q: nat :: text.runs[b].start <= q < j ==> Removed(text.levels[q])
    ensures FirstKept(text, b, j)
  {
    assert RunInText(text, b);
  }

  ghost predicate NextIs(types: seq<BidiClass>, text: Text, a: nat, next: Option<nat>)
    requires TextOk(text) && a < |text.runs|
  {
    match next
    case Some(b) => EndsInInitiator(text, a) && BeginsWithMatch(types, text, text.runs[a].end - 1, b)
    case None => EndsInInitiator(text, a) ==> Unmatched(types, text.runs[a].end - 1)
  }

  /** Run `b` begins with the PDI that matches the initiator at `i`. */
  ghost predicate BeginsWithMatch(types: seq<BidiClass>, text: Text, i: nat, b: nat) {
    exists j: nat :: Matches(types, i, j) && FirstKept(text, b, j)
  }

  ghost predicate Unmatched(types: seq<BidiClass>, i: nat) {
    forall j: nat :: !Matches(types, i, j)
  }

  /** The run that BD13 asks for is the one the search finds. */
  lemma NextOfRun(base: Level, types: seq<BidiClass>, text: Text, a: nat) returns (next: Option<nat>)
    requires 0 <= base <= 1 && Plain(base, types, text)
    requires a < |text.runs|
    ensures NextOk(text, next, a) && NextIs(types, text, a, next)
  {
    hide *;
    PlainIs(base, types, text);
    TextAt(base, types, text, a);
    if !EndsInInitiator(text, a) {
      next := None;
      NoInitiator(types, text, a);
    } else {
      var j := FindMatch(base, types, text, a);
      if j.Some? {
        next := MatchedNext(base, types, text, a, j.value);
      } else {
        next := None;
        UnmatchedNext(base, types, text, a);
      }
    }
  }

  lemma NoInitiator(types: seq<BidiClass>, text: Text, a: nat)
    requires TextOk(text) && a < |text.runs| && !EndsInInitiator(text, a)
    ensures NextOk(text, None, a) && NextIs(types, text, a, None)
  {
  }

  lemma FindMatch(base: Level, types: seq<BidiClass>, text: Text, a: nat) returns (j: Option<nat>)
    requires 0 <= base <= 1 && IsTextOf(base, types, text) && a < |text.runs| && EndsInInitiator(text, a)
    ensures if j.Some? then Matches(types, text.runs[a].end - 1, j.value) else Unmatched(types, text.runs[a].end - 1)
  {
    InitiatorEnds(base, types, text, a);
    var i := text.runs[a].end - 1;
    hide LevelOf, ClassOf, Tiled, TextOk;
    assert OpenAt(types, i, i + 1);
    var limit := CloseFrom(types, i, i + 1);
    j := if Matches(types, i, limit) then Some(limit) else None;
  }

  lemma UnmatchedNext(base: Level, types: seq<BidiClass>, text: Text, a: nat)
    requires 0 <= base <= 1 && Plain(base, types, text)
    requires a < |text.runs| && EndsInInitiator(text, a) && Unmatched(types, text.runs[a].end - 1)
    ensures NextOk(text, None, a) && NextIs(types, text, a, None)
  {
    hide *;
    PlainIs(base, types, text);
    TextAt(base, types, text, a);
    InitiatorEnds(base, types, text, a);
    UnmatchedStaysOpen(types, text.runs[a].end - 1);
    forall x: nat | a < x < |text.runs| ensures !Candidates(text, a, x) {
      TextAt(base, types, text, x);
      NotACandidate(base, types, text, a, x, |types|);
    }
    NothingFollows(types, text, a);
  }

  lemma NothingFollows(types: seq<BidiClass>, text: Text, a: nat)
    requires TextOk(text) && RunInText(text, a) && Unmatched(types, text.runs[a].end - 1)
    requires forall x: nat :: a < x < |text.runs| ==> !Candidates(text, a, x)
    ensures NextOk(text, None, a) && NextIs(types, text, a, None)
  {
    hide TextOk, EndsInInitiator, Unmatched;
    forall x: nat | a < x ensures !Candidates(text, a, x) {
    }
  }

  lemma UnmatchedStaysOpen(types: seq<BidiClass>, i: nat)
    requires i < |types| && IsIsoInit(types[i]) && Unmatched(types, i)
    ensures OpenAt(types, i, |types|)
  {
    NeverClosed(types, i, |types|);
  }

  lemma MatchedNext(base: Level, types: seq<BidiClass>, text: Text, a: nat, j: nat) returns (next: Option<nat>)
    requires 0 <= base <= 1 && Plain(base, types, text)
    requires a < |text.runs| && EndsInInitiator(text, a) && Matches(types, text.runs[a].end - 1, j)
    ensures next.Some? && NextOk(text, next, a) && NextIs(types, text, a, next)
  {
    var b := MatchBeginsRun(base, types, text, a, j);
    next := Some(b);
    assert RunInText(text, b) && OpenAt(types, text.runs[a].end - 1, j);
    RunLevelAt(text, b, j);
    SignificantIsFirst(text.types, text.levels, text.runs[b].start, text.runs[b].end, j);
    forall x: nat | a < x < b ensures !Candidates(text, a, x) {
      RunsOrdered(text, 0, x, b);
      NotACandidate(base, types, text, a, x, j);
    }
  }

  lemma NextsDiffer(types: seq<BidiClass>, text: Text, a: nat, b: nat, next: Option<nat>)
    requires Tiled(text, 0) && TextOk(text) && a < b < |text.runs| && next.Some?
    requires NextIs(types, text, a, next)
    ensures !NextIs(types, text, b, next)
  {
    hide *;
    EndsDiffer(text, a, b);
    if NextIs(types, text, b, next) {
      var j := NextGives(types, text, a, next);
      var j' := NextGives(types, text, b, next);
      FirstIsFirst(text, next.value, j, j');
      MatchIsOneToOne(types, text.runs[a].end - 1, text.runs[b].end - 1, j);
    }
  }

  lemma NextGives(types: seq<BidiClass>, text: Text, a: nat, next: Option<nat>) returns (j: nat)
    requires TextOk(text) && a < |text.runs| && next.Some? && NextIs(types, text, a, next)
    ensures text.runs[a].end > 0 && Matches(types, text.runs[a].end - 1, j) && FirstKept(text, next.value, j)
  {
    assert RunInText(text, a);
    hide EndsInInitiator, Matches, FirstKept;
    j :| Matches(types, text.runs[a].end - 1, j) && FirstKept(text, next.value, j);
  }

  lemma EndsDiffer(text: Text, a: nat, b: nat)
    requires Tiled(text, 0) && TextOk(text) && a < b < |text.runs|
    ensures 0 < text.runs[a].end < text.runs[b].end
  {
    RunsOrdered(text, 0, a, b);
    assert RunInText(text, a) && RunInText(text, b);
  }

  lemma FirstIsFirst(text: Text, x: nat, p: nat, q: nat)
    requires FirstKept(text, x, p) && FirstKept(text, x, q)
    ensures p == q
  {
  }

  lemma {:induction false} NextsUpTo(base: Level, types: seq<BidiClass>, text: Text, n: nat) returns (nx: Nexts)
    requires 0 <= base <= 1 && Plain(base, types, text)
    requires n <= |text.runs| && TextOk(text)
    ensures |nx| == n
    ensures forall a: nat :: a < n ==> NextOk(text, nx[a], a) && NextIs(types, text, a, nx[a])
  {
    hide *;
    if n == 0 {
      nx := [];
    } else {
      var prior := NextsUpTo(base, types, text, n - 1);
      var next := NextOfRun(base, types, text, n - 1);
      nx := prior + [next];
    }
  }

  // ----- BD13 -----

  /** `p` is the last character of run `x` that was not removed. */
  ghost predicate LastKept(text: Text, x: nat, p: nat) {
    && x < |text.runs| && |text.levels| == |text.types|
    && text.runs[x].start <= p < text.runs[x].end <= |text.types|
    && !Removed(text.levels[p])
    && forall q :: p < q < text.runs[x].end ==> Removed(text.levels[q])
  }

  /** Run `s[m]` is followed by the run that begins with what BD13 asks for after the last character of
      `s[m]`; it is the last of the sequence when BD13 asks for nothing. */
  ghost predicate ContinuesAsBD13(types: seq<BidiClass>, text: Text, s: seq<nat>, m: nat)
    requires |types| == |text.types| == |text.levels| && m < |s|
  {
    exists k: nat :: LastKept(text, s[m], k) && GoesOn(types, text, k, if m + 1 < |s| then Some(s[m + 1]) else None)
  }

  ghost predicate GoesOn(types: seq<BidiClass>, text: Text, k: nat, next: Option<nat>)
    requires k < |types| == |text.types| == |text.levels|
  {
    match next
    case Some(b) => exists j: nat :: FirstKept(text, b, j) && FollowedBy(types, text.levels, k, Some(j))
    case None => FollowedBy(types, text.levels, k, None)
  }

  ghost predicate IsBD13(types: seq<BidiClass>, text: Text, s: seq<nat>)
    requires |types| == |text.types| == |text.levels|
  {
    forall m: nat :: m < |s| ==> ContinuesAsBD13(types, text, s, m)
  }

  lemma {:induction false} LastKeptUpTo(text: Text, a: nat, p: nat, k: nat) returns (last: nat)
    requires a < |text.runs| && |text.levels| == |text.types| && text.runs[a].end <= |text.types|
    requires text.runs[a].start <= p < k <= text.runs[a].end && !Removed(text.levels[p])
    requires forall q :: k <= q < text.runs[a].end ==> Removed(text.levels[q])
    ensures LastKept(text, a, last)
    decreases k
  {
    if Removed(text.levels[k - 1]) {
      last := LastKeptUpTo(text, a, p, k - 1);
    } else {
      last := k - 1;
    }
  }

  lemma LastOfRun(text: Text, a: nat) returns (last: nat)
    requires TextOk(text) && NoneEmpty(text.levels, text.runs) && a < |text.runs|
    ensures LastKept(text, a, last) && last < |text.types| == |text.levels|
  {
    assert RunInText(text, a);
    var start, end := text.runs[a].start, text.runs[a].end;
    assert HasKept(text.levels, start, end);
    var p: nat :| start <= p < end <= |text.levels| && !Removed(text.levels[p]);
    last := LastKeptUpTo(text, a, p, end);
  }

  lemma LastIsLast(text: Text, x: nat, p: nat, q: nat)
    requires LastKept(text, x, p) && LastKept(text, x, q)
    ensures p == q
  {
  }

  /** The last character of a run is an initiator that was not overridden, or the next level is another. */
  lemma EndOfRun(base: Level, types: seq<BidiClass>, text: Text, a: nat, k: nat)
    requires 0 <= base <= 1 && IsTextOf(base, types, text) && LastKept(text, a, k)
    ensures k < |types| == |text.types| == |text.levels| && TextOk(text) && RunInText(text, a)
    ensures EndsInInitiator(text, a) ==> k == text.runs[a].end - 1 && IsIsoInit(types[k]) && text.types[k] == types[k]
    ensures !EndsInInitiator(text, a) ==> !IsIsoInit(text.types[k]) && EndsLevelRun(text.levels, k)
  {
    hide *;
    LastInRun(text, a, k);
    RunOfText(base, types, text, a);
    if EndsInInitiator(text, a) {
      InitiatorEnds(base, types, text, a);
    } else {
      SpanEnds(text, a, k);
    }
  }

  lemma RunOfText(base: Level, types: seq<BidiClass>, text: Text, a: nat)
    requires 0 <= base <= 1 && IsTextOf(base, types, text) && a < |text.runs|
    ensures Tiled(text, 0) && TextOk(text) && RunInText(text, a) && |text.types| == |text.levels| == |types|
  {
    hide LevelOf, ClassOf, Tiled, NoneEmpty;
  }

  lemma LastInRun(text: Text, a: nat, k: nat)
    requires LastKept(text, a, k)
    ensures a < |text.runs| && k < text.runs[a].end <= |text.types| == |text.levels|
    ensures !Removed(text.levels[text.runs[a].end - 1]) ==> k == text.runs[a].end - 1
  {
  }

  ghost predicate EndsLevelRun(levels: seq<Level>, k: nat)
    requires k < |levels|
  {
    var n := NextKept(levels, k + 1);
    n < |levels| ==> levels[n] != levels[k]
  }

  lemma SpanEnds(text: Text, a: nat, k: nat)
    requires Tiled(text, 0) && LastKept(text, a, k) && RunInText(text, a) && !EndsInInitiator(text, a)
    ensures !IsIsoInit(text.types[k]) && EndsLevelRun(text.levels, k)
  {
    var end := text.runs[a].end;
    assert IsSpan(text.types, text.levels, text.runs[a].start, end, text.runs[a].level);
    var n := NextKept(text.levels, k + 1);
    hide Tiled;
    if n < |text.types| {
      assert n >= end;
    }
  }

  /** The matching PDI begins its level run when the initiator ends its own. */
  lemma MatchBeginsLevelRun(base: Level, types: seq<BidiClass>, text: Text, i: nat, j: nat, n: nat)
    requires 0 <= base <= 1 && SeparatorOnlyLast(types) && IsTextOf(base, types, text) && Matches(types, i, j)
    requires i < n < j < |types| == |text.levels| && types[j] == PDI && OpenAt(types, i, j)
    requires !Removed(text.levels[n]) && text.levels[n] != text.levels[i]
    ensures BeginsLevelRun(text.levels, j)
  {
    hide *;
    KeptAt(base, types, text, i);
    KeptAt(base, types, text, j);
    KeptAt(base, types, text, n);
    PdiIsKept();
    MatchedLikeInitiator(base, types, i, j);
    InsideOf(base, types, i, n, j);
    forall q: nat | n <= q < j && !Removed(text.levels[q]) ensures text.levels[q] != text.levels[j] {
      KeptAt(base, types, text, q);
      InsideOf(base, types, i, q, j);
    }
    Begins(text.levels, n, j);
  }

  /** A character of the isolate, before its end. */
  lemma InsideOf(base: Level, types: seq<BidiClass>, i: nat, q: nat, j: nat)
    requires 0 <= base <= 1 && SeparatorOnlyLast(types) && OpenAt(types, i, j) && i < q < j < |types| && !IsRemovedClass(types[q])
    ensures if Opened(base, types, i) then LevelOf(base, types, q) > LevelOf(base, types, i)
            else LevelOf(base, types, q) == LevelOf(base, types, i)
  {
    hide *;
    OpenEarlier(types, i, j, q);
    OpenEarlier(types, i, j, q + 1);
    NoSeparatorBefore(types, q, j);
    LevelInside(base, types, i, q);
  }

  lemma Begins(levels: seq<Level>, n: nat, j: nat)
    requires n < j < |levels| && !Removed(levels[n]) && !Removed(levels[j])
    requires forall q: nat :: n <= q < j && !Removed(levels[q]) ==> levels[q] != levels[j]
    ensures BeginsLevelRun(levels, j)
  {
  }

  // ----- texts on which the source meets BD13 -----

  lemma FollowsInRun(types: seq<BidiClass>, levels: seq<Level>, k: nat, n: nat)
    requires k < n < |types| == |levels| && n == NextKept(levels, k + 1) && levels[n] == levels[k]
    ensures FollowedBy(types, levels, k, Some(n))
  {
  }

  lemma FollowsMatch(types: seq<BidiClass>, levels: seq<Level>, k: nat, j: nat)
    requires k < |types| == |levels| && EndsLevelRun(levels, k) && Matches(types, k, j) && BeginsLevelRun(levels, j)
    ensures FollowedBy(types, levels, k, Some(j))
  {
    hide Matches, BeginsLevelRun;
  }

  lemma FollowsNothing(types: seq<BidiClass>, levels: seq<Level>, k: nat)
    requires k < |types| == |levels| && EndsLevelRun(levels, k)
    requires forall j: nat :: !Joins(types, levels, k, j)
    ensures FollowedBy(types, levels, k, None)
  {
    hide Joins;
  }

  lemma EndsThere(levels: seq<Level>, k: nat, n: nat)
    requires k < |levels| && n == NextKept(levels, k + 1) && (n < |levels| ==> levels[n] != levels[k])
    ensures EndsLevelRun(levels, k)
  {
  }

  /** After an initiator that was not overridden comes its matching PDI, if it has one. */
  lemma MatchFollows(base: Level, types: seq<BidiClass>, text: Text, i: nat, j: nat)
    requires 0 <= base <= 1 && Plain(base, types, text) && Matches(types, i, j)
    requires i < |types| == |text.types| == |text.levels| && text.types[i] == types[i]
    ensures FollowedBy(types, text.levels, i, Some(j))
  {
    assert i < j < |types| && types[j] == PDI && OpenAt(types, i, j);
    hide *;
    PlainIs(base, types, text);
    KeptAt(base, types, text, i);
    KeptAt(base, types, text, j);
    PdiIsKept();
    MatchedLikeInitiator(base, types, i, j);
    var n := NextKept(text.levels, i + 1);
    NextKeptUpTo(text.levels, i, j);
    if n == j {
      FollowsInRun(types, text.levels, i, j);
    } else {
      OpenEarlier(types, i, j, n);
      OpenEarlier(types, i, j, n + 1);
      NoSeparatorBefore(types, n, j);
      InsideIsHigher(base, types, text, i, n);
      MatchBeginsLevelRun(base, types, text, i, j, n);
      EndsThere(text.levels, i, n);
      FollowsMatch(types, text.levels, i, j);
    }
  }

  /** An unmatched initiator that was not overridden is the last of its level run. */
  lemma UnmatchedEnds(base: Level, types: seq<BidiClass>, text: Text, i: nat)
    requires 0 <= base <= 1 && Plain(base, types, text) && Unmatched(types, i)
    requires i < |types| == |text.types| == |text.levels| && text.types[i] == types[i] && IsIsoInit(types[i])
    ensures EndsLevelRun(text.levels, i)
  {
    assert !Breaks(types, text.types, text.levels, i);
    hide *;
    PlainIs(base, types, text);
    var n := NextKept(text.levels, i + 1);
    if n < |types| && text.levels[n] == text.levels[i] {
      NothingBetween(base, types, text, i, n);
      if types[n] == PDI {
        MatchedAt(types, i, n);
      } else {
        ThenBreaks(types, text.types, text.levels, i);
      }
    } else {
      EndsThere(text.levels, i, n);
    }
  }

  lemma MatchedAt(types: seq<BidiClass>, i: nat, n: nat)
    requires n < |types| && OpenAt(types, i, n) && types[n] == PDI && Depth(types, i + 1, n) == 0
    ensures !Unmatched(types, i)
  {
    assert Matches(types, i, n);
  }

  /** An overridden initiator at the end of its level run has no matching PDI. */
  lemma OverriddenIsUnmatched(base: Level, types: seq<BidiClass>, text: Text, k: nat, j: nat)
    requires 0 <= base <= 1 && Plain(base, types, text)
    requires k < |types| == |text.types| == |text.levels| && !IsIsoInit(text.types[k]) && EndsLevelRun(text.levels, k)
    ensures !Matches(types, k, j)
  {
    if Matches(types, k, j) {
      assert k < j < |types| && types[j] == PDI && IsIsoInit(types[k]);
      assert !Breaks(types, text.types, text.levels, k);
      hide Plain, Matches, Unbroken;
      PlainIs(base, types, text);
      KeptAt(base, types, text, j);
      NextKeptUpTo(text.levels, k, j);
    }
  }

  /** What the search finds after a run is what BD13 asks for after its last character. */
  lemma MeetsBD13(base: Level, types: seq<BidiClass>, text: Text, a: nat, next: Option<nat>, k: nat)
    requires 0 <= base <= 1 && Plain(base, types, text) && LastKept(text, a, k)
    requires TextOk(text) && a < |text.runs| && NextIs(types, text, a, next)
    requires k < |types| == |text.types| == |text.levels|
    ensures GoesOn(types, text, k, next)
  {
    hide *;
    PlainIs(base, types, text);
    EndOfRun(base, types, text, a, k);
    match next
    case Some(b) =>
      var j := NextGives(types, text, a, next);
      NextEnds(types, text, a, next);
      MatchFollows(base, types, text, k, j);
      GoesOnAt(types, text, k, b, j);
    case None =>
      if EndsInInitiator(text, a) {
        NextEnds(types, text, a, next);
        UnmatchedEnds(base, types, text, k);
        NoMatch(types, k);
      } else {
        forall j: nat ensures !Matches(types, k, j) {
          OverriddenIsUnmatched(base, types, text, k, j);
        }
      }
      StopsThere(types, text, k);
  }

  lemma NextEnds(types: seq<BidiClass>, text: Text, a: nat, next: Option<nat>)
    requires TextOk(text) && a < |text.runs| && NextIs(types, text, a, next)
    ensures next.Some? ==> EndsInInitiator(text, a)
    ensures next.None? && EndsInInitiator(text, a) ==>
              Unmatched(types, text.runs[a].end - 1)
  {
    hide EndsInInitiator, Matches;
  }

  lemma NoMatch(types: seq<BidiClass>, k: nat)
    requires Unmatched(types, k)
    ensures forall j: nat :: !Matches(types, k, j)
  {
    hide Matches;
  }

  lemma GoesOnAt(types: seq<BidiClass>, text: Text, k: nat, b: nat, j: nat)
    requires k < |types| == |text.types| == |text.levels| && FirstKept(text, b, j) && FollowedBy(types, text.levels, k, Some(j))
    ensures GoesOn(types, text, k, Some(b))
  {
    hide FirstKept, FollowedBy;
  }

  lemma StopsThere(types: seq<BidiClass>, text: Text, k: nat)
    requires k < |types| == |text.types| == |text.levels| && EndsLevelRun(text.levels, k)
    requires forall j: nat :: !Matches(types, k, j)
    ensures GoesOn(types, text, k, None)
  {
    hide Matches, BeginsLevelRun, EndsLevelRun, FollowedBy;
    FollowsNothing(types, text.levels, k);
  }

  lemma FollowIsBD13(base: Level, types: seq<BidiClass>, text: Text, nx: Nexts, s: seq<nat>)
    requires 0 <= base <= 1 && Plain(base, types, text) && |types| == |text.types| == |text.levels|
    requires TextOk(text) && NextsOk(text, nx) && JoinsOk(text, s) && s == [s[0]] + Follow(nx, s[0])
    requires forall a: nat :: a < |nx| ==> NextIs(types, text, a, nx[a])
    ensures IsBD13(types, text, s)
  {
    NextsForward(text, nx);
    assert s[0] < |nx|;
    hide NextIs, NextOk, NextsOk, EndsInInitiator, StartsWithPdi, ContinuesAsBD13, Plain, GoesOn, LastKept;
    forall m: nat | m < |s| ensures ContinuesAsBD13(types, text, s, m) {
      FollowSteps(nx, s[0], s, m);
      RunContinues(base, types, text, s, m, nx[s[m]]);
    }
  }

  lemma NextsForward(text: Text, nx: Nexts)
    requires TextOk(text) && NextsOk(text, nx)
    ensures |nx| == |text.runs|
    ensures forall x: nat :: x < |nx| && nx[x].Some? ==> x < nx[x].value < |nx|
  {
    forall x: nat | x < |nx| && nx[x].Some? ensures x < nx[x].value < |nx| {
      assert NextOk(text, nx[x], x);
    }
  }

  lemma RunContinues(base: Level, types: seq<BidiClass>, text: Text, s: seq<nat>, m: nat, next: Option<nat>)
    requires 0 <= base <= 1 && Plain(base, types, text) && |types| == |text.types| == |text.levels|
    requires TextOk(text) && m < |s| && s[m] < |text.runs|
    requires next == (if m + 1 < |s| then Some(s[m + 1]) else None) && NextIs(types, text, s[m], next)
    ensures ContinuesAsBD13(types, text, s, m)
  {
    assert NoneEmpty(text.levels, text.runs);
    hide NextIs, Plain, GoesOn, LastKept, NoneEmpty, TextOk;
    var k := LastOfRun(text, s[m]);
    MeetsBD13(base, types, text, s[m], next, k);
  }

  lemma SequencesAreBD13(base: Level, types: seq<BidiClass>, text: Text)
    requires 0 <= base <= 1 && Plain(base, types, text)
    ensures TextOk(text) && |types| == |text.types| == |text.levels|
    ensures var ss := Sequences(text, {}, 0); forall i :: 0 <= i < |ss| ==> IsBD13(types, text, ss[i])
  {
    PlainIs(base, types, text);
    var nx := AllNexts(base, types, text);
    var ss := Sequences(text, {}, 0);
    SequencesFollow(text, nx, {}, 0);
    SequencesPartition(text, {}, 0);
    hide Plain, NextsOk, NextIs, Follow, JoinsOk, IsBD13, Tiled, TextOk;
    forall i | 0 <= i < |ss| ensures IsBD13(types, text, ss[i]) {
      FollowIsBD13(base, types, text, nx, ss[i]);
    }
  }

  lemma AllNexts(base: Level, types: seq<BidiClass>, text: Text) returns (nx: Nexts)
    requires 0 <= base <= 1 && Plain(base, types, text) && TextOk(text) && Tiled(text, 0)
    ensures NextsOk(text, nx)
    ensures forall a: nat :: a < |nx| ==> a < |text.runs| && NextIs(types, text, a, nx[a])
  {
    hide *;
    nx := NextsUpTo(base, types, text, |text.runs|);
    forall a: nat, b: nat | a < b < |nx| && nx[a].Some? ensures nx[a] != nx[b] {
      if nx[a] == nx[b] {
        NextsDiffer(types, text, a, b, nx[a]);
      }
    }
    NextsAre(text, nx);
  }

  lemma NextsAre(text: Text, nx: Nexts)
    requires TextOk(text) && |nx| == |text.runs|
    requires forall a: nat :: a < |nx| ==> NextOk(text, nx[a], a)
    requires forall a: nat, b: nat :: a < b < |nx| && nx[a].Some? ==> nx[a] != nx[b]
    ensures NextsOk(text, nx)
  {
    hide NextOk;
  }
}
