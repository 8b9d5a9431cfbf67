/** Rules N1, N2, I1 and I2 (sections 3.3.5 and 3.3.6 of UAX #9) as simultaneous definitions. */
module Neutral {
  import opened Options
  import opened BidiTypes
  import opened Chains

  /** The direction a class counts as for N0 and N1: numbers count as R. */
  function StrongDirection(bc: BidiClass): Option<Direction> {
    match bc
    case L => Some(Ltr)
    case R | AN | EN => Some(Rtl)
    case _ => None
  }

  predicate Skipped(c: Ctx, cls: seq<BidiClass>, k: nat)
    requires k < |cls| == |c.levels|
  {
    Removed(c.levels[k]) || IsNeutral(cls[k])
  }

  /** The direction of the first character before `k` that is not neutral or removed, or of sos. */
  function PriorDirection(c: Ctx, cls: seq<BidiClass>, k: nat): Option<Direction>
    requires k <= |cls| == |c.levels|
  {
    if k == 0 then StrongDirection(c.sos)
    else if StrongDirection(cls[k - 1]).Some? then StrongDirection(cls[k - 1])
    else if Skipped(c, cls, k - 1) then PriorDirection(c, cls, k - 1)
    else None
  }

  /** The direction of the first character from `k` on that is not neutral or removed, or of eos. */
  function FollowingDirection(c: Ctx, cls: seq<BidiClass>, k: nat): Option<Direction>
    requires k <= |cls| == |c.levels|
    decreases |cls| - k
  {
    if k == |cls| then StrongDirection(c.eos)
    else if StrongDirection(cls[k]).Some? then StrongDirection(cls[k])
    else if Skipped(c, cls, k) then FollowingDirection(c, cls, k + 1)
    else None
  }

  function N1At(c: Ctx, cls: seq<BidiClass>, k: nat): BidiClass
    requires k < |cls| == |c.levels|
  {
    var before := PriorDirection(c, cls, k);
    if IsNeutral(cls[k]) && before.Some? && before == FollowingDirection(c, cls, k + 1)
    then before.value.AsClass() else cls[k]
  }

  function N1(c: Ctx, cls: seq<BidiClass>): seq<BidiClass>
    requires |cls| == |c.levels|
  {
    seq(|cls|, k requires 0 <= k < |cls| => N1At(c, cls, k))
  }

  function N2(c: Ctx, cls: seq<BidiClass>): seq<BidiClass>
    requires |cls| == |c.levels|
  {
    seq(|cls|, k requires 0 <= k < |cls| => if IsNeutral(cls[k]) then LevelClass(c.levels[k]) else cls[k])
  }

  /** I1 and I2: what is added to the level of a character of class `bc`. */
  function LevelRaise(level: Level, bc: BidiClass): int {
    if LevelDirection(level) == Ltr then
      if bc == R then 1 else if bc == AN || bc == EN then 2 else 0
    else
      if bc == L || bc == AN || bc == EN then 1 else 0
  }
}
