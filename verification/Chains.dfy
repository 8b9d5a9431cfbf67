/** The text chain of one isolating run sequence, as the rules W1-N2 see it: the classes of its
    characters in order, and what the rules consult besides the classes. */
module Chains {
  import opened Options
  import opened BidiTypes

  /** An entry of the bracket table: the bracket a character is paired with, and whether it opens. */
  datatype BracketEntry = BracketEntry(paired: char, opens: bool)

  /** A character of the paragraph with what the Unicode tables say of it. */
  datatype ParaChar = ParaChar(ch: char, bc: BidiClass, bracket: Option<BracketEntry>)

  datatype Ctx = Ctx(
    sos: BidiClass, eos: BidiClass, level: Level,
    levels: seq<Level>, orig: seq<BidiClass>, chars: seq<ParaChar>)

  ghost predicate Sized(c: Ctx, cls: seq<BidiClass>) {
    && |c.levels| == |c.orig| == |cls|
    && (c.chars == [] || |c.chars| == |cls|)
  }

  /** Class lists as they occur between X10 and I1: exactly the removed characters keep a class that
      rule X9 removes, the others are at the level of the sequence. */
  ghost predicate CtxOk(c: Ctx, cls: seq<BidiClass>) {
    && Sized(c, cls)
    && IsLetter(c.sos) && IsLetter(c.eos)
    && 0 <= c.level <= MAX_DEPTH
    && forall k :: 0 <= k < |cls| ==>
         && (Removed(c.levels[k]) <==> IsRemovedClass(cls[k]))
         && (Removed(c.levels[k]) <==> IsRemovedClass(c.orig[k]))
         && (Removed(c.levels[k]) || c.levels[k] == c.level)
  }

  /** The indices lie in a text of `n` characters, all of which are known. */
  ghost predicate Fits(ind: seq<nat>, n: nat, paragraph: seq<ParaChar>) {
    forall m :: 0 <= m < |ind| ==> ind[m] < n == |paragraph|
  }

  function Gather<T>(all: seq<T>, indices: seq<nat>): seq<T>
    requires forall m :: 0 <= m < |indices| ==> indices[m] < |all|
  {
    seq(|indices|, m requires 0 <= m < |indices| => all[indices[m]])
  }

  /** `after` holds `vals` at the positions of `indices` and is `before` everywhere else. */
  ghost predicate IsRewrite(before: seq<BidiClass>, after: seq<BidiClass>, indices: seq<nat>, vals: seq<BidiClass>) {
    && |after| == |before| && |vals| == |indices|
    && (forall m :: 0 <= m < |indices| ==> indices[m] < |before|)
    && (forall m :: 0 <= m < |indices| ==> after[indices[m]] == vals[m])
    && (forall p :: 0 <= p < |before| && p !in indices ==> after[p] == before[p])
  }

  /** The last position before `k` that was not removed, or -1. */
  function PrevKept(levels: seq<Level>, k: nat): (p: int)
    requires k <= |levels|
    ensures -1 <= p < k
    ensures p >= 0 ==> !Removed(levels[p])
    ensures forall j :: p < j < k ==> Removed(levels[j])
  {
    if k == 0 then -1
    else if !Removed(levels[k - 1]) then k - 1
    else PrevKept(levels, k - 1)
  }

  /** The first position from `k` on that was not removed, or the length. */
  function NextKept(levels: seq<Level>, k: nat): (n: nat)
    requires k <= |levels|
    ensures k <= n <= |levels|
    ensures n < |levels| ==> !Removed(levels[n])
    ensures forall j :: k <= j < n ==> Removed(levels[j])
    decreases |levels| - k
  {
    if k == |levels| then k
    else if !Removed(levels[k]) then k
    else NextKept(levels, k + 1)
  }
}
