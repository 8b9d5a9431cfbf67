/** N0 b and c: which direction a bracket pair is given, in terms of the classes around it. */
module PairFacts {
  import opened Options
  import opened BidiTypes
  import opened Chains
  import opened Neutral
  import opened Brackets
  import opened BracketFacts
  import opened Resolution

  /** A closing bracket closes the opening bracket it is paired with, and the two angle brackets U+232A and
      U+3009 stand for each other. */
  lemma ClosesIff(c: Ctx, cls: seq<BidiClass>, o: nat, k: nat)
    requires o < |cls| == |c.chars| && k < |cls|
    ensures IsOpener(c, cls, o) <==> cls[o] == ON && c.chars[o].bracket.Some? && c.chars[o].bracket.value.opens
    ensures IsCloser(c, cls, k) <==> cls[k] == ON && c.chars[k].bracket.Some? && !c.chars[k].bracket.value.opens
    ensures IsOpener(c, cls, o) ==>
              (Closes(c, cls, o, k) <==>
                 var closer, ch := c.chars[o].bracket.value.paired, c.chars[k].ch;
                 closer == ch || (closer in "\U{232a}\U{3009}" && ch in "\U{232a}\U{3009}"))
  {
    var angles := "\U{232a}\U{3009}";
    assert forall ch :: ch in angles <==> ch == angles[0] || ch == angles[1];
  }

  /** What a class counts as for N0: numbers count as R. */
  predicate CountsAs(bc: BidiClass, rtl: bool) {
    if rtl then bc == R || bc == EN || bc == AN else bc == L
  }

  ghost predicate Encloses(cls: seq<BidiClass>, p: Pair, rtl: bool)
    requires p.closing <= |cls|
  {
    exists k :: p.opening < k < p.closing && CountsAs(cls[k], rtl)
  }

  /** `k` is no neutral and has not been removed. */
  predicate Counts(c: Ctx, cls: seq<BidiClass>, k: nat)
    requires k < |cls| == |c.levels|
  {
    && !Removed(c.levels[k])
    && cls[k] != ON && cls[k] != WS && cls[k] != S && cls[k] != B
    && cls[k] != LRI && cls[k] != RLI && cls[k] != FSI && cls[k] != PDI
  }

  /** The last such character before `k`, or sos when there is none, counts as this direction. */
  ghost predicate Precedes(c: Ctx, cls: seq<BidiClass>, k: nat, rtl: bool)
    requires k <= |cls| == |c.levels|
  {
    || (exists j: nat :: LastCounted(c, cls, k, j) && CountsAs(cls[j], rtl))
    || ((forall j: nat :: j < k ==> !Counts(c, cls, j)) && CountsAs(c.sos, rtl))
  }

  ghost predicate LastCounted(c: Ctx, cls: seq<BidiClass>, k: nat, j: nat)
    requires k <= |cls| == |c.levels|
  {
    j < k && Counts(c, cls, j) && forall m: nat :: j < m < k ==> !Counts(c, cls, m)
  }

  function DirectionOf(rtl: bool): Direction {
    if rtl then Rtl else Ltr
  }

  lemma LastStays(c: Ctx, cls: seq<BidiClass>, k: nat)
    requires k < |cls| == |c.levels| && !Counts(c, cls, k)
    ensures forall j: nat :: LastCounted(c, cls, k, j) ==> LastCounted(c, cls, k + 1, j)
    ensures (forall j: nat :: j < k ==> !Counts(c, cls, j)) ==> forall j: nat :: j <= k ==> !Counts(c, cls, j)
  {
    hide Counts;
  }

  lemma LastIsUnique(c: Ctx, cls: seq<BidiClass>, k: nat, j: nat, i: nat)
    requires k <= |cls| == |c.levels| && LastCounted(c, cls, k, j) && LastCounted(c, cls, k, i)
    ensures i == j
  {
    hide Counts;
  }

  lemma PriorNext(c: Ctx, cls: seq<BidiClass>, k: nat)
    requires CtxOk(c, cls) && k < |cls|
    ensures PriorDirection(c, cls, k + 1) == if Counts(c, cls, k) then StrongDirection(cls[k]) else PriorDirection(c, cls, k)
  {
    assert |cls| == |c.levels|;
    hide *;
    CountsIff(c, cls, k);
    PriorUnfolds(c, cls, k);
  }

  lemma CountsIff(c: Ctx, cls: seq<BidiClass>, k: nat)
    requires CtxOk(c, cls) && k < |cls|
    ensures Counts(c, cls, k) <==> !Skipped(c, cls, k)
    ensures StrongDirection(cls[k]).Some? ==> Counts(c, cls, k)
  {
  }

  lemma PriorUnfolds(c: Ctx, cls: seq<BidiClass>, k: nat)
    requires k < |cls| == |c.levels|
    ensures PriorDirection(c, cls, k + 1)
            == if StrongDirection(cls[k]).Some? then StrongDirection(cls[k])
               else if Skipped(c, cls, k) then PriorDirection(c, cls, k)
               else None
  {
    hide StrongDirection, Skipped;
  }

  /** Either nothing counts before `k`, or there is a last character that does. */
  lemma {:induction false} PriorIs(c: Ctx, cls: seq<BidiClass>, k: nat) returns (last: Option<nat>)
    requires CtxOk(c, cls) && k <= |cls|
    ensures last.Some? ==> LastCounted(c, cls, k, last.value) && PriorDirection(c, cls, k) == StrongDirection(cls[last.value])
    ensures last.None? ==> (forall j: nat :: j < k ==> !Counts(c, cls, j)) && PriorDirection(c, cls, k) == StrongDirection(c.sos)
  {
    hide *;
    SameLength(c, cls);
    if k == 0 {
      PriorStart(c, cls);
      last := None;
    } else {
      PriorNext(c, cls, k - 1);
      if Counts(c, cls, k - 1) {
        LastHere(c, cls, k - 1);
        last := Some(k - 1);
      } else {
        last := PriorIs(c, cls, k - 1);
        LastStays(c, cls, k - 1);
      }
    }
  }

  lemma SameLength(c: Ctx, cls: seq<BidiClass>)
    requires CtxOk(c, cls)
    ensures |c.levels| == |cls|
  {
  }

  lemma PriorStart(c: Ctx, cls: seq<BidiClass>)
    requires |c.levels| == |cls|
    ensures PriorDirection(c, cls, 0) == StrongDirection(c.sos)
  {
  }

  lemma LastHere(c: Ctx, cls: seq<BidiClass>, k: nat)
    requires k < |cls| == |c.levels| && Counts(c, cls, k)
    ensures LastCounted(c, cls, k + 1, k)
  {
  }

  lemma DirectionCounts(bc: BidiClass, rtl: bool)
    ensures StrongDirection(bc) == Some(DirectionOf(rtl)) <==> CountsAs(bc, rtl)
  {
  }

  lemma PrecedesIff(c: Ctx, cls: seq<BidiClass>, k: nat, rtl: bool)
    requires CtxOk(c, cls) && k <= |cls|
    ensures PriorDirection(c, cls, k) == Some(DirectionOf(rtl)) <==> Precedes(c, cls, k, rtl)
  {
    var last := PriorIs(c, cls, k);
    hide CtxOk, Counts, PriorDirection, StrongDirection, CountsAs;
    DirectionCounts(c.sos, rtl);
    if last.Some? {
      DirectionCounts(cls[last.value], rtl);
      if Precedes(c, cls, k, rtl) {
        assert Counts(c, cls, last.value);
        var j: nat :| LastCounted(c, cls, k, j) && CountsAs(cls[j], rtl);
        LastIsUnique(c, cls, k, j, last.value);
      }
    }
  }

  lemma EnclosesIff(cls: seq<BidiClass>, p: Pair, rtl: bool)
    requires p.opening < p.closing <= |cls|
    ensures HasDirection(cls, p.opening + 1, p.closing, DirectionOf(rtl)) <==> Encloses(cls, p, rtl)
  {
    forall k | 0 <= k < |cls| ensures StrongDirection(cls[k]) == Some(DirectionOf(rtl)) <==> CountsAs(cls[k], rtl) {
      DirectionCounts(cls[k], rtl);
    }
    hide StrongDirection, CountsAs;
  }

  /** The brackets of the pair and the combining marks that follow them. */
  ghost predicate OfPair(c: Ctx, p: Pair, k: nat)
    requires |c.levels| == |c.orig|
  {
    || k == p.opening || k == p.closing
    || MarkBehind(c, p.closing, k) || (k < p.closing && MarkBehind(c, p.opening, k))
  }

  /** Only combining marks and removed characters lie between the bracket at `from` and the mark at `k`. */
  ghost predicate MarkBehind(c: Ctx, from: nat, k: nat)
    requires |c.levels| == |c.orig|
  {
    && from < k < |c.orig| && c.orig[k] == NSM
    && forall m: nat :: from < m < k ==> c.orig[m] == NSM || Removed(c.levels[m])
  }

  ghost predicate Gets(c: Ctx, cls: seq<BidiClass>, p: Pair, next: seq<BidiClass>, bc: BidiClass)
    requires |c.levels| == |c.orig| == |cls| == |next|
  {
    forall k: nat :: k < |next| && OfPair(c, p, k) ==> next[k] == bc
  }

  /** N0 b to d for one pair at embedding level `c.level`. A character inside of the embedding direction
      decides for it. With none but of the opposite direction inside, what precedes the pair decides whether
      it is for the opposite direction. With neither inside, the pair is left alone. */
  ghost predicate PairTurn(c: Ctx, cls: seq<BidiClass>, p: Pair, next: seq<BidiClass>)
    requires p.opening < p.closing < |cls| == |c.levels| == |c.orig|
  {
    var odd := c.level % 2 == 1;
    var along, against := if odd then R else L, if odd then L else R;
    && |next| == |cls|
    && (forall k: nat :: k < |cls| && !OfPair(c, p, k) ==> next[k] == cls[k])
    && (Encloses(cls, p, odd) ==> Gets(c, cls, p, next, along))
    && (!Encloses(cls, p, odd) && Encloses(cls, p, !odd) ==>
          Gets(c, cls, p, next, if Precedes(c, cls, p.opening, !odd) then against else along))
    && (!Encloses(cls, p, odd) && !Encloses(cls, p, !odd) ==> next == cls)
  }

  lemma LevelIs(c: Ctx)
    requires 0 <= c.level
    ensures LevelDirection(c.level) == DirectionOf(c.level % 2 == 1)
    ensures LevelDirection(c.level).Opposite() == DirectionOf(c.level % 2 != 1)
    ensures DirectionOf(true).AsClass() == R && DirectionOf(false).AsClass() == L
  {
  }

  lemma MarksAreBehind(c: Ctx, from: nat, k: nat)
    requires |c.levels| == |c.orig|
    ensures MarksFollow(c, from, k) <==> MarkBehind(c, from, k)
  {
  }

  lemma SetPairGives(c: Ctx, cls: seq<BidiClass>, p: Pair, d: Direction)
    requires p.opening < p.closing < |cls| == |c.levels| == |c.orig|
    ensures var next := SetPair(c, cls, p, d);
            && |next| == |cls| && Gets(c, cls, p, next, d.AsClass())
            && forall k: nat :: k < |cls| && !OfPair(c, p, k) ==> next[k] == cls[k]
  {
    forall k: nat | k < |cls|
      ensures SetPair(c, cls, p, d)[k] == if OfPair(c, p, k) then d.AsClass() else cls[k]
    {
      MarksAreBehind(c, p.opening, k);
      MarksAreBehind(c, p.closing, k);
      hide MarksFollow, MarkBehind;
    }
    hide SetPair, OfPair;
  }

  lemma DirectionDecides(c: Ctx, cls: seq<BidiClass>, p: Pair)
    requires CtxOk(c, cls) && p.opening < p.closing < |cls|
    ensures var odd := c.level % 2 == 1;
            PairDirection(c, cls, p)
            == if Encloses(cls, p, odd) then Some(DirectionOf(odd))
               else if Encloses(cls, p, !odd) then
                 Some(if Precedes(c, cls, p.opening, !odd) then DirectionOf(!odd) else DirectionOf(odd))
               else None
  {
    var odd := c.level % 2 == 1;
    LevelIs(c);
    EnclosesIff(cls, p, odd);
    EnclosesIff(cls, p, !odd);
    PrecedesIff(c, cls, p.opening, !odd);
    hide Encloses, Precedes, HasDirection, PriorDirection, CtxOk;
  }

  /** One step of N0 is the rule. */
  lemma ResolvedInTurn(c: Ctx, cls: seq<BidiClass>, p: Pair)
    requires CtxOk(c, cls) && p.opening < p.closing < |cls|
    ensures PairTurn(c, cls, p, ResolvePair(c, cls, p))
  {
    var odd := c.level % 2 == 1;
    DirectionDecides(c, cls, p);
    LevelIs(c);
    hide Encloses, Precedes, PairDirection, SetPair, Gets, OfPair;
    if PairDirection(c, cls, p).Some? {
      SetPairGives(c, cls, p, PairDirection(c, cls, p).value);
    }
  }

  /** N0 takes the pairs of BD16 in turn, in the order of their opening brackets, each with the classes that
      the pairs before it have left. */
  lemma N0TakesTurns(c: Ctx, cls: seq<BidiClass>, i: nat)
    requires CtxOk(c, cls) && |cls| == |c.chars| && !Overflows(c, cls) && i < |PairsOf(c, cls)|
    ensures var pairs := PairsOf(c, cls);
            && ResolvePairs(c, cls, pairs, 0) == cls && ResolvePairs(c, cls, pairs, |pairs|) == N0(c, cls)
            && CtxOk(c, ResolvePairs(c, cls, pairs, i))
            && PairTurn(c, ResolvePairs(c, cls, pairs, i), pairs[i], ResolvePairs(c, cls, pairs, i + 1))
  {
    var pairs := PairsOf(c, cls);
    BracketsAreKept(c, cls, pairs);
    PairsKeepRemoved(c, cls, pairs, i);
    KeptCtx(c, cls, ResolvePairs(c, cls, pairs, i));
    hide CtxOk, PairTurn, PairsOf, ResolvePair;
    ResolvedInTurn(c, ResolvePairs(c, cls, pairs, i), pairs[i]);
  }

  /** What the two brackets of a pair are after N0, from the classes at the pair's turn. */
  lemma BracketsAfterN0(c: Ctx, cls: seq<BidiClass>, i: nat)
    requires CtxOk(c, cls) && |cls| == |c.chars| && !Overflows(c, cls) && BracketsAreNoMarks(c) && i < |PairsOf(c, cls)|
    ensures var pairs := PairsOf(c, cls);
            var p, now, out := pairs[i], ResolvePairs(c, cls, pairs, i), N0(c, cls);
            var odd := c.level % 2 == 1;
            var along, against := if odd then R else L, if odd then L else R;
            out[p.opening] == out[p.closing]
            == if Encloses(now, p, odd) then along
               else if !Encloses(now, p, !odd) then ON
               else if Precedes(c, now, p.opening, !odd) then against
               else along
  {
    var pairs := PairsOf(c, cls);
    N0TakesTurns(c, cls, i);
    BothBracketsAgree(c, cls, i);
    assert pairs[i].opening < pairs[i].closing < |cls|;
    LevelIs(c);
    hide CtxOk, PairsOf, ResolvePairs, N0, Encloses, Precedes, PairDirection;
    DirectionDecides(c, ResolvePairs(c, cls, pairs, i), pairs[i]);
  }
}
