/** Invariants of passes that rewrite the chain of a sequence in place, one position at a time. */
module InPlace {
  import opened Options
  import opened BidiTypes
  import opened RunFacts
  import opened Chains
  import opened Weak
  import opened Neutral
  import opened Brackets

  /** Positions before `k` of the chain hold `vals`, all other positions are as `before`. */
  ghost predicate Forward(before: seq<BidiClass>, now: seq<BidiClass>, ind: seq<nat>, k: nat, vals: seq<BidiClass>) {
    && |now| == |before| && |vals| == |ind| && k <= |ind|
    && (forall m :: 0 <= m < |ind| ==> ind[m] < |before|)
    && (forall m :: 0 <= m < k ==> now[ind[m]] == vals[m])
    && (forall m :: k <= m < |ind| ==> now[ind[m]] == before[ind[m]])
    && (forall p :: 0 <= p < |before| && p !in ind ==> now[p] == before[p])
  }

  /** Positions from `k` on of the chain hold `vals`, all other positions are as `before`. */
  ghost predicate Backward(before: seq<BidiClass>, now: seq<BidiClass>, ind: seq<nat>, k: nat, vals: seq<BidiClass>) {
    && |now| == |before| && |vals| == |ind| && k <= |ind|
    && (forall m :: 0 <= m < |ind| ==> ind[m] < |before|)
    && (forall m :: k <= m < |ind| ==> now[ind[m]] == vals[m])
    && (forall m :: 0 <= m < k ==> now[ind[m]] == before[ind[m]])
    && (forall p :: 0 <= p < |before| && p !in ind ==> now[p] == before[p])
  }

  /** What the chain holds while a forward pass stands at `k`. */
  lemma ForwardView(before: seq<BidiClass>, now: seq<BidiClass>, ind: seq<nat>, k: nat, vals: seq<BidiClass>)
    requires Forward(before, now, ind, k, vals)
    ensures |now| == |before| && forall m :: 0 <= m < |ind| ==> ind[m] < |now|
    ensures |Gather(now, ind)| == |Gather(before, ind)| == |vals|
    ensures forall m :: 0 <= m < k ==> Gather(now, ind)[m] == vals[m]
    ensures forall m :: k <= m < |ind| ==> Gather(now, ind)[m] == Gather(before, ind)[m]
    ensures k < |ind| ==> now[ind[k]] == Gather(before, ind)[k]
  {
  }

  lemma GatherAt<T>(all: seq<T>, ind: seq<nat>, k: nat)
    requires k < |ind| && forall m :: 0 <= m < |ind| ==> ind[m] < |all|
    ensures |Gather(all, ind)| == |ind| && Gather(all, ind)[k] == all[ind[k]]
  {
  }

  lemma ForwardStart(before: seq<BidiClass>, ind: seq<nat>, vals: seq<BidiClass>)
    requires |vals| == |ind| && forall m :: 0 <= m < |ind| ==> ind[m] < |before|
    ensures Forward(before, before, ind, 0, vals)
  {
  }

  lemma ForwardSet(before: seq<BidiClass>, now: seq<BidiClass>, ind: seq<nat>, k: nat, vals: seq<BidiClass>, bc: BidiClass)
    requires Forward(before, now, ind, k, vals) && k < |ind| && Increasing(ind)
    requires ind[k] < |now| && k < |vals| && bc == vals[k]
    ensures Forward(before, now[ind[k] := bc], ind, k + 1, vals)
  {
  }

  lemma ForwardSkip(before: seq<BidiClass>, now: seq<BidiClass>, ind: seq<nat>, k: nat, vals: seq<BidiClass>)
    requires Forward(before, now, ind, k, vals) && k < |ind|
    requires ind[k] < |now| && k < |vals| && now[ind[k]] == vals[k]
    ensures Forward(before, now, ind, k + 1, vals)
  {
  }

  lemma ForwardDone(before: seq<BidiClass>, now: seq<BidiClass>, ind: seq<nat>, vals: seq<BidiClass>)
    requires Forward(before, now, ind, |ind|, vals)
    ensures IsRewrite(before, now, ind, vals)
  {
  }

  /** What the chain holds while a backward pass has finished everything from `k` on. */
  lemma BackwardView(before: seq<BidiClass>, now: seq<BidiClass>, ind: seq<nat>, k: nat, vals: seq<BidiClass>)
    requires Backward(before, now, ind, k, vals)
    ensures |now| == |before| && forall m :: 0 <= m < |ind| ==> ind[m] < |now|
    ensures |Gather(now, ind)| == |Gather(before, ind)| == |vals|
    ensures forall m :: k <= m < |ind| ==> Gather(now, ind)[m] == vals[m]
    ensures forall m :: 0 <= m < k ==> Gather(now, ind)[m] == Gather(before, ind)[m]
    ensures 0 < k <= |ind| ==> now[ind[k - 1]] == Gather(before, ind)[k - 1]
  {
  }

  lemma BackwardSet(before: seq<BidiClass>, now: seq<BidiClass>, ind: seq<nat>, k: nat, vals: seq<BidiClass>, bc: BidiClass)
    requires Backward(before, now, ind, k + 1, vals) && Increasing(ind)
    requires k < |ind| && ind[k] < |now| && k < |vals| && bc == vals[k]
    ensures Backward(before, now[ind[k] := bc], ind, k, vals)
  {
  }

  lemma BackwardSkip(before: seq<BidiClass>, now: seq<BidiClass>, ind: seq<nat>, k: nat, vals: seq<BidiClass>)
    requires Backward(before, now, ind, k + 1, vals)
    requires k < |ind| && ind[k] < |now| && k < |vals| && now[ind[k]] == vals[k]
    ensures Backward(before, now, ind, k, vals)
  {
  }

  lemma BackwardStart(before: seq<BidiClass>, ind: seq<nat>, vals: seq<BidiClass>)
    requires |vals| == |ind| && forall m :: 0 <= m < |ind| ==> ind[m] < |before|
    ensures Backward(before, before, ind, |ind|, vals)
  {
  }

  lemma BackwardDone(before: seq<BidiClass>, now: seq<BidiClass>, ind: seq<nat>, vals: seq<BidiClass>)
    requires Backward(before, now, ind, 0, vals)
    ensures IsRewrite(before, now, ind, vals)
  {
  }

  lemma LastBaseStart(c: Ctx, cls: seq<BidiClass>)
    requires |cls| == |c.levels|
    ensures LastBase(c, cls, 0) == c.sos
  {
  }

  lemma W1Step(c: Ctx, cls: seq<BidiClass>, k: nat)
    requires k < |cls| == |c.levels|
    ensures LastBase(c, cls, k + 1) ==
            if cls[k] != NSM && !Removed(c.levels[k]) then cls[k] else LastBase(c, cls, k)
    ensures |W1(c, cls)| == |cls| && W1(c, cls)[k] == if cls[k] == NSM then LastBase(c, cls, k) else cls[k]
  {
  }

  ghost predicate SkippedRemoved(c: Ctx, cls: seq<BidiClass>, k: nat)
    requires k < |cls| == |c.levels|
  {
    Removed(c.levels[k]) ==> IsRemovedClass(cls[k])
  }

  lemma PriorStep(c: Ctx, cls: seq<BidiClass>, k: nat)
    requires k < |cls| == |c.levels| && SkippedRemoved(c, cls, k)
    ensures cls[k] == L ==> PriorDirection(c, cls, k + 1) == Some(Ltr)
    ensures CountsAsR(cls[k]) ==> PriorDirection(c, cls, k + 1) == Some(Rtl)
    ensures Removed(c.levels[k]) || IsNeutral(cls[k]) ==> PriorDirection(c, cls, k + 1) == PriorDirection(c, cls, k)
    ensures !Removed(c.levels[k]) && !IsNeutral(cls[k]) && cls[k] != L ==> PriorDirection(c, cls, k + 1) != Some(Ltr)
    ensures !Removed(c.levels[k]) && !IsNeutral(cls[k]) && !CountsAsR(cls[k]) ==> PriorDirection(c, cls, k + 1) != Some(Rtl)
  {
  }

  lemma FollowingStep(c: Ctx, cls: seq<BidiClass>, k: nat)
    requires k < |cls| == |c.levels| && SkippedRemoved(c, cls, k)
    ensures cls[k] == L ==> FollowingDirection(c, cls, k) == Some(Ltr)
    ensures CountsAsR(cls[k]) ==> FollowingDirection(c, cls, k) == Some(Rtl)
    ensures Removed(c.levels[k]) || IsNeutral(cls[k]) ==> FollowingDirection(c, cls, k) == FollowingDirection(c, cls, k + 1)
    ensures !Removed(c.levels[k]) && !IsNeutral(cls[k]) && cls[k] != L ==> FollowingDirection(c, cls, k) != Some(Ltr)
    ensures !Removed(c.levels[k]) && !IsNeutral(cls[k]) && !CountsAsR(cls[k]) ==> FollowingDirection(c, cls, k) != Some(Rtl)
  {
  }

  lemma DirectionAtEnds(c: Ctx, cls: seq<BidiClass>)
    requires |cls| == |c.levels|
    requires IsLetter(c.sos) && IsLetter(c.eos)
    ensures PriorDirection(c, cls, 0) == Some(if c.sos == L then Ltr else Rtl)
    ensures FollowingDirection(c, cls, |cls|) == Some(if c.eos == L then Ltr else Rtl)
  {
  }

  lemma {:induction false} LastStrongAgrees(sos: BidiClass, a: seq<BidiClass>, b: seq<BidiClass>, k: nat)
    requires k <= |a| == |b|
    requires forall m :: 0 <= m < k ==> a[m] == b[m] || (!IsStrong(a[m]) && !IsStrong(b[m]))
    ensures LastStrong(sos, a, k) == LastStrong(sos, b, k)
  {
    if k > 0 {
      LastStrongAgrees(sos, a, b, k - 1);
    }
  }

  /** W2 changes no strong character, so it does not disturb its own backward scans. */
  lemma W2KeepsStrong(c: Ctx, cls: seq<BidiClass>, now: seq<BidiClass>, k: nat)
    requires k <= |cls| == |now|
    requires forall m :: 0 <= m < k ==> now[m] == W2(c, cls)[m]
    ensures LastStrong(c.sos, now, k) == LastStrong(c.sos, cls, k)
  {
    LastStrongAgrees(c.sos, now, cls, k);
  }

  lemma {:induction false} LastLetterPrefix(sos: BidiClass, a: seq<BidiClass>, b: seq<BidiClass>, k: nat)
    requires k <= |a| == |b|
    requires forall m :: 0 <= m < k ==> a[m] == b[m]
    ensures LastLetter(sos, a, k) == LastLetter(sos, b, k)
  {
    if k > 0 {
      LastLetterPrefix(sos, a, b, k - 1);
    }
  }

  lemma {:induction false} PrevThenNext(levels: seq<Level>, k: nat, j: nat)
    requires k < |levels| && !Removed(levels[k]) && j <= k
    requires forall m :: j <= m < k ==> Removed(levels[m])
    ensures NextKept(levels, j) == k
    decreases k - j
  {
    if j < k {
      PrevThenNext(levels, k, j + 1);
    }
  }

  /** W4 leaves the character before a separator alone. */
  lemma SeparatorNeighbour(c: Ctx, cls: seq<BidiClass>, k: nat, p: nat)
    requires |cls| == |c.levels| && k < |cls| && IsSeparator(cls[k]) && !Removed(c.levels[k])
    requires p == PrevKept(c.levels, k)
    ensures SeparatorClass(c.levels, cls, p) == cls[p]
  {
    PrevThenNext(c.levels, k, p + 1);
    hide PrevKept, NextKept;
    assert !Between(c.levels, cls, p, EN) && !Between(c.levels, cls, p, AN);
    hide Between;
  }

  /** No removed character has class `bc`. */
  ghost predicate NeverRemoved(levels: seq<Level>, cls: seq<BidiClass>, bc: BidiClass)
    requires |levels| == |cls|
  {
    forall m :: 0 <= m < |levels| && Removed(levels[m]) ==> cls[m] != bc
  }

  /** In-place W4 at position `k`: the rewritten prefix shows the same neighbours as before the rule,
      and no removed character has become a number. */
  lemma W4InPlace(c: Ctx, cls: seq<BidiClass>, now: seq<BidiClass>, k: nat)
    requires CtxOk(c, cls) && k < |cls| == |now|
    requires forall m :: 0 <= m < k ==> now[m] == SeparatorClass(c.levels, cls, m)
    requires forall m :: k <= m < |cls| ==> now[m] == cls[m]
    ensures NeverRemoved(c.levels, now, EN) && NeverRemoved(c.levels, now, AN)
    ensures SeparatorClass(c.levels, now, k) == SeparatorClass(c.levels, cls, k)
  {
    assert IsSeparator(cls[k]) ==> !Removed(c.levels[k]);
    RemovedSurvivesW4(c, cls, now, k);
    hide CtxOk, PrevKept, NextKept;
    var p := PrevKept(c.levels, k);
    if IsSeparator(cls[k]) && p >= 0 {
      SeparatorNeighbour(c, cls, k, p);
    }
    SameNeighbours(c.levels, cls, now, k);
  }

  lemma SameNeighbours(levels: seq<Level>, a: seq<BidiClass>, b: seq<BidiClass>, k: nat)
    requires k < |a| == |b| == |levels|
    requires PrevKept(levels, k) >= 0 && IsSeparator(a[k]) ==> a[PrevKept(levels, k)] == b[PrevKept(levels, k)]
    requires forall m :: k <= m < |a| ==> a[m] == b[m]
    ensures SeparatorClass(levels, a, k) == SeparatorClass(levels, b, k)
  {
    hide PrevKept, NextKept;
  }

  lemma RemovedSurvivesW4(c: Ctx, cls: seq<BidiClass>, now: seq<BidiClass>, k: nat)
    requires CtxOk(c, cls) && k < |cls| == |now|
    requires forall m :: 0 <= m < k ==> now[m] == SeparatorClass(c.levels, cls, m)
    requires forall m :: k <= m < |cls| ==> now[m] == cls[m]
    ensures NeverRemoved(c.levels, now, EN) && NeverRemoved(c.levels, now, AN)
  {
    forall m | 0 <= m < |now| && Removed(c.levels[m]) ensures now[m] != EN && now[m] != AN {
      assert IsRemovedClass(cls[m]);
      hide CtxOk, Between;
    }
  }

  ghost predicate Linked(c: Ctx, cls: seq<BidiClass>, j: nat, m: nat)
    requires |cls| == |c.levels|
  {
    if j < m then AllEt(c, cls, j + 1, m) else AllEt(c, cls, m + 1, j)
  }

  /** `m` was a terminator linked to an EN before position `k`. */
  ghost predicate Reached(c: Ctx, cls: seq<BidiClass>, k: nat, m: nat)
    requires m < |cls| == |c.levels|
  {
    cls[m] == ET && exists j: nat :: j < k && j < |cls| && cls[j] == EN && Linked(c, cls, j, m)
  }

  /** While W5 stands at `k`, exactly the terminators linked to an EN before `k` have become EN. */
  ghost predicate Spread(c: Ctx, cls: seq<BidiClass>, now: seq<BidiClass>, k: nat)
    requires |cls| == |c.levels|
  {
    && |now| == |cls|
    && forall m: nat :: m < |cls| ==> now[m] == if Reached(c, cls, k, m) then EN else cls[m]
  }

  /** One sweep from position `k`: the terminators in `(lo, hi)` become EN, and neither scan could go further. */
  ghost predicate Swept(levels: seq<Level>, now: seq<BidiClass>, next: seq<BidiClass>, lo: int, k: nat, hi: nat) {
    && |next| == |now| == |levels|
    && -1 <= lo < k < hi <= |now|
    && (forall m :: 0 <= m < |now| ==> next[m] == if lo < m < hi && now[m] == ET then EN else now[m])
    && (forall m :: lo < m < hi && m != k ==> now[m] == ET || Removed(levels[m]))
    && (lo >= 0 ==> now[lo] != ET && !Removed(levels[lo]))
    && (hi < |now| ==> now[hi] != ET && !Removed(levels[hi]))
  }

  lemma NumbersAreKept(c: Ctx, cls: seq<BidiClass>, m: nat)
    requires CtxOk(c, cls) && m < |cls| && (cls[m] == EN || cls[m] == ET)
    ensures !Removed(c.levels[m])
  {
    assert !IsRemovedClass(cls[m]);
  }

  /** A stretch of terminators cannot contain an EN. */
  lemma NoNumberInside(c: Ctx, cls: seq<BidiClass>, lo: nat, hi: nat, j: nat)
    requires CtxOk(c, cls) && lo <= j < hi <= |cls| && AllEt(c, cls, lo, hi)
    ensures cls[j] != EN
  {
    if cls[j] == EN {
      NumbersAreKept(c, cls, j);
    }
  }

  lemma TerminatorInside(c: Ctx, cls: seq<BidiClass>, lo: nat, hi: nat, j: nat)
    requires |cls| == |c.levels| && lo <= j < hi <= |cls| && AllEt(c, cls, lo, hi) && !Removed(c.levels[j])
    ensures cls[j] == ET
  {
  }

  /** A terminator linked to an EN at or before `k` was reached before `k` or is caught by the sweep. */
  lemma SweepIsComplete(c: Ctx, cls: seq<BidiClass>, now: seq<BidiClass>, next: seq<BidiClass>, lo: int, k: nat, hi: nat, m: nat)
    requires CtxOk(c, cls) && k < |cls| && m < |cls| && Spread(c, cls, now, k)
    requires Swept(c.levels, now, next, lo, k, hi)
    requires cls[k] == EN && cls[m] == ET && Linked(c, cls, k, m)
    ensures next[m] == EN
  {
    hide CtxOk, AllEt;
    NumbersAreKept(c, cls, m);
    NumbersAreKept(c, cls, k);
    assert m != k;
    if m < lo {
      SweepStoppedBefore(c, cls, now, lo, k, m);
    } else if m > hi {
      TerminatorInside(c, cls, k + 1, m, hi);
      NotReachedAcross(c, cls, k, hi);
    }
  }

  lemma SweepStoppedBefore(c: Ctx, cls: seq<BidiClass>, now: seq<BidiClass>, lo: nat, k: nat, m: nat)
    requires CtxOk(c, cls) && m < lo < k < |cls| && Spread(c, cls, now, k)
    requires now[lo] != ET && !Removed(c.levels[lo])
    requires cls[m] == ET && AllEt(c, cls, m + 1, k)
    ensures now[m] == EN
  {
    assert cls[lo] == ET && Reached(c, cls, k, lo);
    var j: nat :| j < k && j < |cls| && cls[j] == EN && Linked(c, cls, j, lo);
    if j > m {
      NoNumberInside(c, cls, m + 1, k, j);
    } else {
      assert Linked(c, cls, j, m);
      assert Reached(c, cls, k, m);
    }
  }

  /** An EN that has not been processed yet shields what follows it. */
  lemma NotReachedAcross(c: Ctx, cls: seq<BidiClass>, k: nat, m: nat)
    requires CtxOk(c, cls) && k < m < |cls| && cls[k] == EN
    ensures !Reached(c, cls, k, m)
  {
    if j: nat :| j < k && cls[j] == EN && Linked(c, cls, j, m) {
      NoNumberInside(c, cls, j + 1, m, k);
    }
  }

  /** The sweep from `k` only catches terminators linked to an EN at or before `k`. */
  lemma SweepIsSound(c: Ctx, cls: seq<BidiClass>, now: seq<BidiClass>, next: seq<BidiClass>, lo: int, k: nat, hi: nat, m: nat)
    requires CtxOk(c, cls) && k < |cls| && m < |cls| && Spread(c, cls, now, k)
    requires Swept(c.levels, now, next, lo, k, hi) && now[k] == EN
    requires lo < m < hi && now[m] == ET
    ensures Reached(c, cls, k + 1, m)
  {
    SweptIsLinked(c, cls, now, next, lo, k, hi, m);
    if cls[k] != EN {
      ReachSpreads(c, cls, k, m);
    }
  }

  /** What is linked to a reached terminator has been reached too. */
  lemma ReachSpreads(c: Ctx, cls: seq<BidiClass>, k: nat, m: nat)
    requires CtxOk(c, cls) && k < |cls| && m < |cls| && m != k
    requires Reached(c, cls, k, k) && cls[m] == ET && Linked(c, cls, k, m)
    ensures Reached(c, cls, k, m)
  {
    var j: nat :| j < k && j < |cls| && cls[j] == EN && Linked(c, cls, j, k);
    assert Linked(c, cls, j, m);
  }

  lemma SweptIsLinked(c: Ctx, cls: seq<BidiClass>, now: seq<BidiClass>, next: seq<BidiClass>, lo: int, k: nat, hi: nat, m: nat)
    requires |cls| == |c.levels| && k < |cls| && m < |cls| && Spread(c, cls, now, k)
    requires Swept(c.levels, now, next, lo, k, hi)
    requires lo < m < hi && m != k
    ensures Linked(c, cls, k, m)
  {
    hide Reached;
    forall x | lo < x < hi && x != k ensures cls[x] == ET || Removed(c.levels[x]) {
      assert now[x] == ET || Removed(c.levels[x]);
    }
  }

  lemma SpreadSweep(c: Ctx, cls: seq<BidiClass>, now: seq<BidiClass>, next: seq<BidiClass>, lo: int, k: nat, hi: nat)
    requires CtxOk(c, cls) && k < |cls| && Spread(c, cls, now, k)
    requires Swept(c.levels, now, next, lo, k, hi) && now[k] == EN
    ensures Spread(c, cls, next, k + 1)
  {
    hide CtxOk, Linked;
    forall m: nat | m < |cls| ensures next[m] == if Reached(c, cls, k + 1, m) then EN else cls[m] {
      if Reached(c, cls, k, m) {
      } else if lo < m < hi && now[m] == ET {
        SweepIsSound(c, cls, now, next, lo, k, hi, m);
      } else if Reached(c, cls, k + 1, m) {
        SweepIsComplete(c, cls, now, next, lo, k, hi, m);
      }
    }
  }

  lemma SpreadSkip(c: Ctx, cls: seq<BidiClass>, now: seq<BidiClass>, k: nat)
    requires |cls| == |c.levels| && k < |cls| && Spread(c, cls, now, k) && now[k] != EN
    ensures Spread(c, cls, now, k + 1)
  {
    hide Linked;
    assert cls[k] != EN;
    forall m: nat | m < |cls| ensures Reached(c, cls, k + 1, m) ==> Reached(c, cls, k, m) {
    }
  }

  lemma SpreadIsW5(c: Ctx, cls: seq<BidiClass>, now: seq<BidiClass>)
    requires CtxOk(c, cls) && Spread(c, cls, now, |cls|)
    ensures now == W5(c, cls)
  {
    forall m: nat | m < |cls| ensures now[m] == W5At(c, cls, m) {
      if cls[m] == ET {
        ReachedIsTouching(c, cls, m);
      }
    }
  }

  lemma ReachedIsTouching(c: Ctx, cls: seq<BidiClass>, m: nat)
    requires |cls| == |c.levels| && m < |cls| && cls[m] == ET
    ensures Reached(c, cls, |cls|, m) <==> TouchesEn(c, cls, m)
  {
    hide AllEt;
    if Reached(c, cls, |cls|, m) {
      var j: nat :| j < |cls| && cls[j] == EN && Linked(c, cls, j, m);
      if j < m {
        assert AllEt(c, cls, j + 1, m);
      } else {
        assert AllEt(c, cls, m + 1, j);
      }
    }
    if TouchesEn(c, cls, m) {
      if j: nat :| j < m && cls[j] == EN && AllEt(c, cls, j + 1, m) {
        assert Linked(c, cls, j, m);
      } else {
        var j: nat :| m < j < |cls| && cls[j] == EN && AllEt(c, cls, m + 1, j);
        assert Linked(c, cls, j, m);
      }
    }
  }

  lemma SpreadStart(c: Ctx, cls: seq<BidiClass>)
    requires |cls| == |c.levels|
    ensures Spread(c, cls, cls, 0)
  {
  }

  /** The chain holds `vals`, every other position is as `before`. */
  ghost predicate Holding(before: seq<BidiClass>, now: seq<BidiClass>, ind: seq<nat>) {
    && |now| == |before|
    && (forall m :: 0 <= m < |ind| ==> ind[m] < |before|)
    && (forall p :: 0 <= p < |before| && p !in ind ==> now[p] == before[p])
  }

  lemma {:induction false} PriorPrefix(c: Ctx, a: seq<BidiClass>, b: seq<BidiClass>, k: nat)
    requires k <= |a| == |b| == |c.levels|
    requires forall m :: 0 <= m < k ==> a[m] == b[m]
    ensures PriorDirection(c, a, k) == PriorDirection(c, b, k)
  {
    if k > 0 {
      PriorPrefix(c, a, b, k - 1);
    }
  }

  lemma {:induction false} FollowingSuffix(c: Ctx, a: seq<BidiClass>, b: seq<BidiClass>, k: nat)
    requires k <= |a| == |b| == |c.levels|
    requires forall m :: k <= m < |a| ==> a[m] == b[m]
    ensures FollowingDirection(c, a, k) == FollowingDirection(c, b, k)
    decreases |a| - k
  {
    if k < |a| {
      FollowingSuffix(c, a, b, k + 1);
    }
  }

  /** N1 changes nothing about the direction that follows a position: a neutral it rewrites becomes
      the direction found behind it. */
  lemma {:induction false} FollowingSurvivesN1(c: Ctx, cls: seq<BidiClass>, j: nat)
    requires j <= |cls| == |c.levels|
    ensures FollowingDirection(c, N1(c, cls), j) == FollowingDirection(c, cls, j)
    decreases |cls| - j
  {
    hide PriorDirection;
    if j < |cls| {
      FollowingSurvivesN1(c, cls, j + 1);
      var out := N1(c, cls);
      assert out[j] == N1At(c, cls, j);
    }
  }

  /** In-place N1 at a neutral `k`, everything after it already rewritten. */
  lemma N1InPlace(c: Ctx, cls: seq<BidiClass>, now: seq<BidiClass>, k: nat)
    requires k < |cls| == |now| == |c.levels|
    requires forall m :: 0 <= m <= k ==> now[m] == cls[m]
    requires forall m :: k < m < |cls| ==> now[m] == N1(c, cls)[m]
    ensures PriorDirection(c, now, k) == PriorDirection(c, cls, k)
    ensures FollowingDirection(c, now, k + 1) == FollowingDirection(c, cls, k + 1)
  {
    hide PriorDirection, FollowingDirection;
    PriorPrefix(c, now, cls, k);
    FollowingSuffix(c, now, N1(c, cls), k + 1);
    FollowingSurvivesN1(c, cls, k + 1);
  }

  lemma NeutralIsKept(c: Ctx, cls: seq<BidiClass>, k: nat)
    requires CtxOk(c, cls) && k < |cls| && IsNeutral(cls[k])
    ensures !Removed(c.levels[k])
  {
    assert !IsRemovedClass(cls[k]);
  }

  lemma PairsAreKept(c: Ctx, cls: seq<BidiClass>, pairs: seq<Pair>)
    requires CtxOk(c, cls) && |cls| == |c.chars| && BracketPairs(c, cls, pairs, |cls|)
    ensures forall i :: 0 <= i < |pairs| ==> !Removed(c.levels[pairs[i].opening]) && !Removed(c.levels[pairs[i].closing])
  {
    forall i | 0 <= i < |pairs| ensures !Removed(c.levels[pairs[i].opening]) && !Removed(c.levels[pairs[i].closing]) {
      assert IsBracketPair(c, cls, pairs[i], |cls|);
      NeutralIsKept(c, cls, pairs[i].opening);
      NeutralIsKept(c, cls, pairs[i].closing);
    }
  }

  lemma {:induction false} ScanStaysNone(c: Ctx, cls: seq<BidiClass>, k: nat)
    requires k <= |cls| == |c.chars| && PairScan(c, cls, k).None?
    ensures PairScan(c, cls, |cls|).None?
    decreases |cls| - k
  {
    if k < |cls| {
      ScanStaysNone(c, cls, k + 1);
    }
  }

  lemma NothingToRewrite(types: seq<BidiClass>, ind: seq<nat>)
    requires forall m :: 0 <= m < |ind| ==> ind[m] < |types|
    ensures IsRewrite(types, types, ind, Gather(types, ind))
  {
  }

  /** The combining marks that follow the bracket at `from`, as far as position `to`, have become `bc`. */
  ghost predicate Marking(c: Ctx, before: seq<BidiClass>, now: seq<BidiClass>, ind: seq<nat>, from: nat, to: nat, bc: BidiClass)
    requires |c.levels| == |c.orig|
  {
    && Holding(before, now, ind)
    && forall m :: 0 <= m < |ind| ==> now[ind[m]] == if m < to && MarksFollow(c, from, m) then bc else before[ind[m]]
  }

  ghost predicate OnlyMarks(c: Ctx, from: nat, to: nat)
    requires |c.levels| == |c.orig|
  {
    forall m :: from < m < to && m < |c.orig| ==> c.orig[m] == NSM || Removed(c.levels[m])
  }

  lemma MarkingStart(c: Ctx, before: seq<BidiClass>, ind: seq<nat>, from: nat, bc: BidiClass)
    requires |c.levels| == |c.orig| && forall m :: 0 <= m < |ind| ==> ind[m] < |before|
    ensures Marking(c, before, before, ind, from, from + 1, bc) && OnlyMarks(c, from, from + 1)
  {
  }

  lemma OnlyMarksGrows(c: Ctx, from: nat, j: nat)
    requires |c.levels| == |c.orig| && OnlyMarks(c, from, j)
    requires from < j < |c.orig| && (c.orig[j] == NSM || Removed(c.levels[j]))
    ensures OnlyMarks(c, from, j + 1)
  {
  }

  lemma MarkingStep(c: Ctx, before: seq<BidiClass>, now: seq<BidiClass>, next: seq<BidiClass>, ind: seq<nat>, from: nat, j: nat, bc: BidiClass)
    requires |c.levels| == |c.orig| == |ind| && from < j < |ind| && Increasing(ind)
    requires Marking(c, before, now, ind, from, j, bc) && OnlyMarks(c, from, j + 1)
    requires ind[j] < |now| && next == if c.orig[j] == NSM then now[ind[j] := bc] else now
    ensures Marking(c, before, next, ind, from, j + 1, bc)
  {
    assert MarksFollow(c, from, j) <==> c.orig[j] == NSM;
    hide MarksFollow;
  }

  lemma MarkingStops(c: Ctx, before: seq<BidiClass>, now: seq<BidiClass>, ind: seq<nat>, from: nat, j: nat, to: nat, bc: BidiClass)
    requires |c.levels| == |c.orig| == |ind| && from < j <= to <= |ind|
    requires Marking(c, before, now, ind, from, j, bc)
    requires j < to ==> c.orig[j] != NSM && !Removed(c.levels[j])
    ensures Marking(c, before, now, ind, from, to, bc)
  {
    forall m | j <= m < to ensures !MarksFollow(c, from, m) {
    }
    hide MarksFollow;
  }

  lemma RewriteView(before: seq<BidiClass>, now: seq<BidiClass>, ind: seq<nat>, vals: seq<BidiClass>)
    requires IsRewrite(before, now, ind, vals)
    ensures |now| == |before| && |vals| == |ind| && forall m :: 0 <= m < |ind| ==> ind[m] < |now|
    ensures Gather(now, ind) == vals
  {
  }

  lemma RewriteAgain(before: seq<BidiClass>, now: seq<BidiClass>, next: seq<BidiClass>, ind: seq<nat>, vals: seq<BidiClass>, vals': seq<BidiClass>)
    requires IsRewrite(before, now, ind, vals) && IsRewrite(now, next, ind, vals')
    ensures IsRewrite(before, next, ind, vals')
  {
  }

  lemma PairIn(pairs: seq<Pair>, n: nat, i: nat)
    requires PairsIn(pairs, n) && i < |pairs|
    ensures pairs[i].opening < pairs[i].closing < n
  {
  }
}
