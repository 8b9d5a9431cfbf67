/** Rules W1-W7 (section 3.3.4 of UAX #9) as simultaneous definitions: the class each character of a
    chain gets, in terms of the classes before the rule. */
module Weak {
  import opened BidiTypes
  import opened Chains

  /** The class of the last character before `k` that is neither removed nor a nonspacing mark, or sos. */
  function LastBase(c: Ctx, cls: seq<BidiClass>, k: nat): BidiClass
    requires k <= |cls| == |c.levels|
  {
    if k == 0 then c.sos
    else if cls[k - 1] != NSM && !Removed(c.levels[k - 1]) then cls[k - 1]
    else LastBase(c, cls, k - 1)
  }

  function W1(c: Ctx, cls: seq<BidiClass>): (out: seq<BidiClass>)
    requires |cls| == |c.levels|
  {
    seq(|cls|, k requires 0 <= k < |cls| => if cls[k] == NSM then LastBase(c, cls, k) else cls[k])
  }

  /** The last L, R or AL before `k`, or sos. */
  function LastStrong(sos: BidiClass, cls: seq<BidiClass>, k: nat): BidiClass
    requires k <= |cls|
  {
    if k == 0 then sos
    else if IsStrong(cls[k - 1]) then cls[k - 1]
    else LastStrong(sos, cls, k - 1)
  }

  function W2(c: Ctx, cls: seq<BidiClass>): seq<BidiClass> {
    seq(|cls|, k requires 0 <= k < |cls| =>
      if cls[k] == EN && LastStrong(c.sos, cls, k) == AL then AN else cls[k])
  }

  function W3(c: Ctx, cls: seq<BidiClass>): seq<BidiClass> {
    seq(|cls|, k requires 0 <= k < |cls| => if cls[k] == AL then R else cls[k])
  }

  /** The nearest characters on both sides of `k` that were not removed exist and are of class `bc`. */
  predicate Between(levels: seq<Level>, cls: seq<BidiClass>, k: nat, bc: BidiClass)
    requires k < |cls| == |levels|
  {
    var p := PrevKept(levels, k);
    var n := NextKept(levels, k + 1);
    p >= 0 && n < |cls| && cls[p] == bc && cls[n] == bc
  }

  function SeparatorClass(levels: seq<Level>, cls: seq<BidiClass>, k: nat): BidiClass
    requires k < |cls| == |levels|
  {
    if IsSeparator(cls[k]) && Between(levels, cls, k, EN) then EN
    else if cls[k] == CS && Between(levels, cls, k, AN) then AN
    else cls[k]
  }

  function W4(c: Ctx, cls: seq<BidiClass>): seq<BidiClass>
    requires |cls| == |c.levels|
  {
    seq(|cls|, k requires 0 <= k < |cls| => SeparatorClass(c.levels, cls, k))
  }

  /** Every character of `cls[lo..hi]` is a terminator or removed. */
  ghost predicate AllEt(c: Ctx, cls: seq<BidiClass>, lo: int, hi: int)
    requires |cls| == |c.levels|
  {
    forall m :: 0 <= lo <= m < hi <= |cls| ==> cls[m] == ET || Removed(c.levels[m])
  }

  /** Only terminators and removed characters separate `k` from an EN before or after it. */
  ghost predicate TouchesEn(c: Ctx, cls: seq<BidiClass>, k: nat)
    requires k < |cls| == |c.levels|
  {
    || (exists j :: 0 <= j < k && cls[j] == EN && AllEt(c, cls, j + 1, k))
    || (exists j :: k < j < |cls| && cls[j] == EN && AllEt(c, cls, k + 1, j))
  }

  ghost function W5At(c: Ctx, cls: seq<BidiClass>, k: nat): BidiClass
    requires k < |cls| == |c.levels|
  {
    if cls[k] == ET && TouchesEn(c, cls, k) then EN else cls[k]
  }

  ghost function W5(c: Ctx, cls: seq<BidiClass>): seq<BidiClass>
    requires |cls| == |c.levels|
  {
    seq(|cls|, k requires 0 <= k < |cls| => W5At(c, cls, k))
  }

  function W6(c: Ctx, cls: seq<BidiClass>): seq<BidiClass> {
    seq(|cls|, k requires 0 <= k < |cls| => if IsSeparator(cls[k]) || cls[k] == ET then ON else cls[k])
  }

  /** The last L or R before `k`, or sos. */
  function LastLetter(sos: BidiClass, cls: seq<BidiClass>, k: nat): BidiClass
    requires k <= |cls|
  {
    if k == 0 then sos
    else if cls[k - 1] == L || cls[k - 1] == R then cls[k - 1]
    else LastLetter(sos, cls, k - 1)
  }

  function W7(c: Ctx, cls: seq<BidiClass>): seq<BidiClass> {
    seq(|cls|, k requires 0 <= k < |cls| =>
      if cls[k] == EN && LastLetter(c.sos, cls, k) == L then L else cls[k])
  }
}
