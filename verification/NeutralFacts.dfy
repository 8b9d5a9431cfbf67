/** N1 followed by N2: what becomes of a whole block of neutrals (section 3.3.5 of UAX #9). */
module NeutralFacts {
  import opened Options
  import opened BidiTypes
  import opened Chains
  import opened Neutral

  /** A maximal block of neutrals, which removed characters do not interrupt. */
  ghost predicate NeutralBlock(c: Ctx, cls: seq<BidiClass>, lo: nat, hi: nat)
    requires |cls| == |c.levels|
  {
    && lo < hi <= |cls|
    && (forall k :: lo <= k < hi ==> Skipped(c, cls, k))
    && (lo > 0 ==> !Skipped(c, cls, lo - 1))
    && (hi < |cls| ==> !Skipped(c, cls, hi))
  }

  /** The direction on one side of the block; numbers count as R. */
  function SideBefore(c: Ctx, cls: seq<BidiClass>, lo: nat): Option<Direction>
    requires lo <= |cls|
  {
    StrongDirection(if lo == 0 then c.sos else cls[lo - 1])
  }

  function SideAfter(c: Ctx, cls: seq<BidiClass>, hi: nat): Option<Direction> {
    StrongDirection(if hi >= |cls| then c.eos else cls[hi])
  }

  /** The direction both sides share, or else the embedding direction. */
  function BlockClass(c: Ctx, cls: seq<BidiClass>, lo: nat, hi: nat): BidiClass
    requires lo <= |cls|
  {
    var before := SideBefore(c, cls, lo);
    if before.Some? && before == SideAfter(c, cls, hi) then before.value.AsClass() else LevelClass(c.level)
  }

  lemma SkippedHasNoDirection(c: Ctx, cls: seq<BidiClass>, k: nat)
    requires CtxOk(c, cls) && k < |cls| && Skipped(c, cls, k)
    ensures StrongDirection(cls[k]).None?
  {
  }

  lemma InBlock(c: Ctx, cls: seq<BidiClass>, lo: nat, hi: nat, k: nat)
    requires CtxOk(c, cls) && NeutralBlock(c, cls, lo, hi) && lo <= k < hi
    ensures k < |cls| == |c.levels|
    ensures PriorDirection(c, cls, k + 1) == PriorDirection(c, cls, k)
    ensures FollowingDirection(c, cls, k) == FollowingDirection(c, cls, k + 1)
  {
    assert Skipped(c, cls, k);
    SkippedHasNoDirection(c, cls, k);
    hide CtxOk, NeutralBlock, Skipped, StrongDirection;
  }

  lemma BlockEnds(c: Ctx, cls: seq<BidiClass>, lo: nat, hi: nat)
    requires CtxOk(c, cls) && NeutralBlock(c, cls, lo, hi)
    ensures lo < hi <= |cls| == |c.levels|
    ensures PriorDirection(c, cls, lo) == SideBefore(c, cls, lo) && FollowingDirection(c, cls, hi) == SideAfter(c, cls, hi)
  {
    hide StrongDirection;
  }

  lemma {:induction false} PriorOfBlock(c: Ctx, cls: seq<BidiClass>, lo: nat, hi: nat, k: nat)
    requires CtxOk(c, cls) && NeutralBlock(c, cls, lo, hi) && lo <= k <= hi
    ensures k <= |cls| == |c.levels| && PriorDirection(c, cls, k) == SideBefore(c, cls, lo)
    decreases k
  {
    hide *;
    BlockEnds(c, cls, lo, hi);
    if k > lo {
      PriorOfBlock(c, cls, lo, hi, k - 1);
      InBlock(c, cls, lo, hi, k - 1);
    }
  }

  lemma {:induction false} FollowingOfBlock(c: Ctx, cls: seq<BidiClass>, lo: nat, hi: nat, k: nat)
    requires CtxOk(c, cls) && NeutralBlock(c, cls, lo, hi) && lo <= k <= hi
    ensures k <= |cls| == |c.levels| && FollowingDirection(c, cls, k) == SideAfter(c, cls, hi)
    decreases hi - k
  {
    hide *;
    BlockEnds(c, cls, lo, hi);
    if k < hi {
      FollowingOfBlock(c, cls, lo, hi, k + 1);
      InBlock(c, cls, lo, hi, k);
    }
  }

  lemma NeutralBecomes(c: Ctx, cls: seq<BidiClass>, k: nat)
    requires CtxOk(c, cls) && k < |cls| && IsNeutral(cls[k])
    ensures var d := PriorDirection(c, cls, k);
            N2(c, N1(c, cls))[k]
            == if d.Some? && d == FollowingDirection(c, cls, k + 1) then d.value.AsClass() else LevelClass(c.level)
  {
    hide PriorDirection, FollowingDirection;
    assert N1(c, cls)[k] == N1At(c, cls, k);
    assert !Removed(c.levels[k]);
  }

  /** N1 and N2 give all of a block one class. */
  lemma BlockGetsOneClass(c: Ctx, cls: seq<BidiClass>, lo: nat, hi: nat)
    requires CtxOk(c, cls) && NeutralBlock(c, cls, lo, hi)
    ensures forall k :: lo <= k < hi ==>
              N2(c, N1(c, cls))[k] == if Removed(c.levels[k]) then cls[k] else BlockClass(c, cls, lo, hi)
  {
    forall k | lo <= k < hi
      ensures N2(c, N1(c, cls))[k] == if Removed(c.levels[k]) then cls[k] else BlockClass(c, cls, lo, hi)
    {
      NeutralAt(c, cls, lo, hi, k);
    }
  }

  lemma NeutralAt(c: Ctx, cls: seq<BidiClass>, lo: nat, hi: nat, k: nat)
    requires CtxOk(c, cls) && NeutralBlock(c, cls, lo, hi) && lo <= k < hi
    ensures N2(c, N1(c, cls))[k] == if Removed(c.levels[k]) then cls[k] else BlockClass(c, cls, lo, hi)
  {
    assert Skipped(c, cls, k);
    if Removed(c.levels[k]) {
      OthersKeepTheirClass(c, cls, k);
    } else {
      PriorOfBlock(c, cls, lo, hi, k);
      FollowingOfBlock(c, cls, lo, hi, k + 1);
      hide PriorDirection, FollowingDirection, SideBefore, SideAfter, NeutralBlock, N1, N2, CtxOk;
      NeutralBecomes(c, cls, k);
    }
  }

  /** A character that is no neutral is in no block, and keeps its class. */
  lemma OthersKeepTheirClass(c: Ctx, cls: seq<BidiClass>, k: nat)
    requires CtxOk(c, cls) && k < |cls| && !IsNeutral(cls[k])
    ensures N2(c, N1(c, cls))[k] == cls[k]
  {
    assert N1(c, cls)[k] == cls[k];
  }

  /** Every neutral is in a block. */
  lemma {:induction false} BlockAround(c: Ctx, cls: seq<BidiClass>, lo: nat, hi: nat) returns (s: nat, e: nat)
    requires |cls| == |c.levels| && lo < hi <= |cls| && forall k :: lo <= k < hi ==> Skipped(c, cls, k)
    ensures s <= lo && hi <= e && NeutralBlock(c, cls, s, e)
    decreases lo + (|cls| - hi)
  {
    if lo > 0 && Skipped(c, cls, lo - 1) {
      s, e := BlockAround(c, cls, lo - 1, hi);
    } else if hi < |cls| && Skipped(c, cls, hi) {
      s, e := BlockAround(c, cls, lo, hi + 1);
    } else {
      s, e := lo, hi;
    }
  }
}
