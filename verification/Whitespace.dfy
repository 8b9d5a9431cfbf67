/** Rule L1 (section 3.4 of UAX #9): `reset_whitespace_levels` works backwards from every separator and
    from the end of the line on a vector it has already changed; the rule looks at the line as it was. */
module Whitespace {
  import opened BidiTypes

  predicate IsBoundary(bc: BidiClass) {
    bc == S || bc == B
  }

  predicate IsBlank(bc: BidiClass) {
    bc == WS || IsIsoControl(bc)
  }

  /** Whitespace, an isolate control, or removed. */
  predicate Passable(types: seq<BidiClass>, levels: seq<Level>, i: nat)
    requires i < |types| == |levels|
  {
    IsBlank(types[i]) || (Removed(levels[i]) && !IsBoundary(types[i]))
  }

  ghost predicate AllPassable(types: seq<BidiClass>, levels: seq<Level>, lo: nat, hi: nat)
    requires hi <= |types| == |levels|
  {
    forall i: nat :: lo <= i < hi ==> Passable(types, levels, i)
  }

  /** A place before `limit` at which trailing whitespace is reset: a separator, or the end of the line. */
  ghost predicate StopsAt(types: seq<BidiClass>, levels: seq<Level>, k: nat, e: nat, end: nat)
    requires end <= |types| == |levels|
  {
    && k < e <= end
    && (e == end || IsBoundary(types[e]))
    && AllPassable(types, levels, k, e)
  }

  /** L1 for the character at `k` of a line that ends at `end`. */
  ghost predicate ResetByL1(types: seq<BidiClass>, levels: seq<Level>, k: nat, end: nat)
    requires k < end <= |types| == |levels|
  {
    || IsBoundary(types[k])
    || (IsBlank(types[k]) && exists e: nat :: StopsAt(types, levels, k, e, end))
  }

  /** L1 for a whole line. */
  ghost predicate IsL1(types: seq<BidiClass>, levels: seq<Level>, base: Level, start: nat, end: nat, out: seq<Level>) {
    && start <= end <= |types| == |levels|
    && |out| == end - start
    && forall k :: start <= k < end ==> out[k - start] == if ResetByL1(types, levels, k, end) then base else levels[k]
  }

  /** The levels of a line after L1. */
  ghost function L1(types: seq<BidiClass>, levels: seq<Level>, base: Level, start: nat, end: nat): (out: seq<Level>)
    requires start <= end <= |types| == |levels|
    ensures IsL1(types, levels, base, start, end, out)
  {
    seq(end - start, i requires 0 <= i < end - start =>
      if ResetByL1(types, levels, start + i, end) then base else levels[start + i])
  }

  lemma L1IsUnique(types: seq<BidiClass>, levels: seq<Level>, base: Level, start: nat, end: nat, out: seq<Level>)
    requires IsL1(types, levels, base, start, end, out)
    ensures out == L1(types, levels, base, start, end)
  {
    var other := L1(types, levels, base, start, end);
    forall i | 0 <= i < |out| ensures out[i] == other[i] {
      assert out[start + i - start] == out[i] && other[start + i - start] == other[i];
    }
  }

  /** Whitespace, isolate controls and what X9 removed fill the line from `k` up to a segment or paragraph
      separator at `e`, or up to the end of the line. */
  ghost predicate TrailsUpTo(types: seq<BidiClass>, levels: seq<Level>, k: nat, e: nat, end: nat)
    requires end <= |types| == |levels|
  {
    && k < e <= end
    && (e == end || types[e] == S || types[e] == B)
    && forall i: nat :: k <= i < e ==> LetsThrough(types[i], levels[i])
  }

  predicate LetsThrough(t: BidiClass, level: Level) {
    t == WS || t == RLI || t == LRI || t == FSI || t == PDI || (level == -1 && t != S && t != B)
  }

  lemma TrailsIff(types: seq<BidiClass>, levels: seq<Level>, k: nat, e: nat, end: nat)
    requires end <= |types| == |levels|
    ensures StopsAt(types, levels, k, e, end) <==> TrailsUpTo(types, levels, k, e, end)
  {
    forall i: nat | i < |types| ensures Passable(types, levels, i) <==> LetsThrough(types[i], levels[i]) {
    }
    hide Passable, LetsThrough;
  }

  /** L1 by the classes: separators, and whitespace and isolate controls that trail, get the base level. */
  lemma L1ByClass(types: seq<BidiClass>, levels: seq<Level>, base: Level, start: nat, end: nat, k: nat)
    requires start <= k < end <= |types| == |levels|
    ensures var t := types[k];
            L1(types, levels, base, start, end)[k - start]
            == if || t == S || t == B
                  || ((t == WS || t == RLI || t == LRI || t == FSI || t == PDI)
                      && exists e: nat :: TrailsUpTo(types, levels, k, e, end))
               then base else levels[k]
  {
    forall e: nat ensures StopsAt(types, levels, k, e, end) <==> TrailsUpTo(types, levels, k, e, end) {
      TrailsIff(types, levels, k, e, end);
    }
    hide StopsAt, TrailsUpTo;
  }

  /** What the loop over the line has reset once it stands at `idx`. */
  ghost predicate ResetSoFar(types: seq<BidiClass>, levels: seq<Level>, k: nat, idx: nat)
    requires k < |types| == |levels| && idx <= |types|
  {
    && k < idx
    && (IsBoundary(types[k])
        || (IsBlank(types[k]) && exists e: nat :: e < idx && IsBoundary(types[e]) && StopsAt(types, levels, k, e, idx)))
  }

  ghost predicate SoFar(types: seq<BidiClass>, levels: seq<Level>, base: Level, start: nat, idx: nat, now: seq<Level>) {
    && |now| == |types| == |levels| && start <= idx <= |types| && base != NO_LEVEL
    && forall k: nat :: k < |now| ==> now[k] == if start <= k && ResetSoFar(types, levels, k, idx) then base else levels[k]
  }

  lemma SamePassable(types: seq<BidiClass>, levels: seq<Level>, base: Level, start: nat, idx: nat, now: seq<Level>, i: nat)
    requires SoFar(types, levels, base, start, idx, now) && i < |types|
    ensures Passable(types, now, i) == Passable(types, levels, i)
  {
  }

  /** `reset_contiguous_whitespace_before` */
  method ResetBefore(start: nat, end: nat, base: Level, types: seq<BidiClass>, levels: seq<Level>) returns (out: seq<Level>)
    requires start <= end <= |types| == |levels| && base != NO_LEVEL
    requires forall k: nat :: start <= k < end && IsBoundary(types[k]) ==> !Removed(levels[k])
    ensures |out| == |levels|
    ensures forall k: nat :: k < |out| ==>
      out[k] == if start <= k < end && IsBlank(types[k]) && AllPassable(types, levels, k, end) then base else levels[k]
  {
    out := levels;
    var i := end;
    while i > start
      invariant start <= i <= end && |out| == |levels|
      invariant AllPassable(types, levels, i, end)
      invariant forall k: nat :: k < |out| ==> out[k] == if i <= k < end && IsBlank(types[k]) then base else levels[k]
    {
      i := i - 1;
      if types[i] == WS || IsIsoControl(types[i]) {
        out := out[i := base];
      } else if Removed(out[i]) {
        // Skip over deleted entries
      } else {
        // end of contiguous section
        assert !Passable(types, levels, i);
        return;
      }
    }
  }

  lemma SoFarStart(types: seq<BidiClass>, levels: seq<Level>, base: Level, start: nat)
    requires start <= |types| == |levels| && base != NO_LEVEL
    ensures SoFar(types, levels, base, start, start, levels)
  {
  }

  /** The loop moves over a character that is no separator. */
  lemma SoFarSkips(types: seq<BidiClass>, levels: seq<Level>, base: Level, start: nat, idx: nat, now: seq<Level>)
    requires SoFar(types, levels, base, start, idx, now) && idx < |types| && !IsBoundary(types[idx])
    ensures SoFar(types, levels, base, start, idx + 1, now)
  {
    forall k: nat | k < |now| && start <= k ensures ResetSoFar(types, levels, k, idx + 1) <==> ResetSoFar(types, levels, k, idx) {
      forall e: nat | e <= idx && IsBoundary(types[e])
        ensures StopsAt(types, levels, k, e, idx + 1) <==> StopsAt(types, levels, k, e, idx) && e < idx
      {
      }
    }
  }

  /** The loop resets a separator and what leads up to it. */
  lemma SoFarResets(types: seq<BidiClass>, levels: seq<Level>, base: Level, start: nat, idx: nat, now: seq<Level>, next: seq<Level>)
    requires SoFar(types, levels, base, start, idx, now) && idx < |types| && IsBoundary(types[idx])
    requires |next| == |now|
    requires forall k: nat :: k < |now| ==>
      next[k] == if k == idx || (start <= k < idx && IsBlank(types[k]) && AllPassable(types, now, k, idx)) then base else now[k]
    ensures SoFar(types, levels, base, start, idx + 1, next)
  {
    forall k: nat | k < idx && start <= k
      ensures ResetSoFar(types, levels, k, idx + 1)
              <==> ResetSoFar(types, levels, k, idx) || (IsBlank(types[k]) && AllPassable(types, now, k, idx))
    {
      PassableNow(types, levels, base, start, idx, now, k);
      assert StopsAt(types, levels, k, idx, idx + 1) <==> AllPassable(types, levels, k, idx);
      forall e: nat | e < idx && IsBoundary(types[e])
        ensures StopsAt(types, levels, k, e, idx + 1) <==> StopsAt(types, levels, k, e, idx)
      {
      }
    }
  }

  lemma PassableNow(types: seq<BidiClass>, levels: seq<Level>, base: Level, start: nat, idx: nat, now: seq<Level>, k: nat)
    requires SoFar(types, levels, base, start, idx, now)
    ensures AllPassable(types, now, k, idx) <==> AllPassable(types, levels, k, idx)
  {
    forall i: nat | i < |types| ensures Passable(types, now, i) == Passable(types, levels, i) {
      SamePassable(types, levels, base, start, idx, now, i);
    }
  }

  /** The end of the line resets what leads up to it. */
  lemma LineEndResets(types: seq<BidiClass>, levels: seq<Level>, base: Level, start: nat, end: nat, now: seq<Level>, out: seq<Level>)
    requires SoFar(types, levels, base, start, end, now) && |out| == |now|
    requires forall k: nat :: k < |now| ==>
      out[k] == if start <= k < end && IsBlank(types[k]) && AllPassable(types, now, k, end) then base else now[k]
    ensures IsL1(types, levels, base, start, end, out[start..end])
  {
    forall k: nat | start <= k < end
      ensures ResetByL1(types, levels, k, end)
              <==> ResetSoFar(types, levels, k, end) || (IsBlank(types[k]) && AllPassable(types, now, k, end))
    {
      PassableNow(types, levels, base, start, end, now, k);
      assert StopsAt(types, levels, k, end, end) <==> AllPassable(types, levels, k, end);
      if IsBlank(types[k]) && exists e: nat :: StopsAt(types, levels, k, e, end) {
        var e: nat :| StopsAt(types, levels, k, e, end);
        assert e < end ==> IsBoundary(types[e]);
      }
    }
  }

  /** `reset_whitespace_levels` is rule L1. */
  method ResetWhitespaceLevels(types: seq<BidiClass>, levels: seq<Level>, base: Level, start: nat, end: nat) returns (out: seq<Level>)
    requires start <= end <= |types| == |levels| && base != NO_LEVEL
    ensures IsL1(types, levels, base, start, end, out)
  {
    var now: seq<Level> := levels;
    SoFarStart(types, levels, base, start);
    hide AllPassable;
    for idx := start to end
      invariant SoFar(types, levels, base, start, idx, now)
    {
      if types[idx] == S || types[idx] == B {
        ghost var prior := now;
        now := now[idx := base];
        assert forall k: nat :: start <= k < idx && IsBoundary(types[k]) ==> !Removed(now[k]);
        now := ResetBefore(start, idx, base, types, now);
        BoundaryStep(types, levels, base, start, idx, prior, now);
      } else {
        SoFarSkips(types, levels, base, start, idx, now);
      }
    }
    ghost var prior := now;
    assert forall k: nat :: start <= k < end && IsBoundary(types[k]) ==> !Removed(now[k]);
    now := ResetBefore(start, end, base, types, now);
    LineEndResets(types, levels, base, start, end, prior, now);
    out := now[start..end];
  }

  lemma BoundaryStep(types: seq<BidiClass>, levels: seq<Level>, base: Level, start: nat, idx: nat, prior: seq<Level>, next: seq<Level>)
    requires SoFar(types, levels, base, start, idx, prior) && idx < |types| && IsBoundary(types[idx])
    requires |next| == |prior|
    requires forall k: nat :: k < |next| ==>
      next[k] == if start <= k < idx && IsBlank(types[k]) && AllPassable(types, prior[idx := base], k, idx) then base else prior[idx := base][k]
    ensures SoFar(types, levels, base, start, idx + 1, next)
  {
    var reset: seq<Level> := prior[idx := base];
    assert forall i: nat :: i < idx ==> Passable(types, reset, i) == Passable(types, prior, i);
    forall k: nat | k < idx ensures AllPassable(types, reset, k, idx) <==> AllPassable(types, prior, k, idx) {
      assert forall i: nat :: k <= i < idx ==> Passable(types, reset, i) == Passable(types, prior, i);
    }
    SoFarResets(types, levels, base, start, idx, prior, next);
  }

  /** L1 gives only levels of the line and the paragraph level. */
  lemma L1KeepsLevels(types: seq<BidiClass>, levels: seq<Level>, base: Level, start: nat, end: nat, out: seq<Level>)
    requires IsL1(types, levels, base, start, end, out)
    ensures forall i :: 0 <= i < |out| ==> out[i] == base || out[i] == levels[start + i]
  {
    forall i | 0 <= i < |out| ensures out[i] == base || out[i] == levels[start + i] {
      assert out[start + i - start] == out[i];
    }
  }

  lemma L1KeepsRemoved(types: seq<BidiClass>, levels: seq<Level>, base: Level, start: nat, end: nat, out: seq<Level>)
    requires IsL1(types, levels, base, start, end, out) && base != NO_LEVEL
    requires forall p :: 0 <= p < |levels| && Removed(levels[p]) ==> IsRemovedClass(types[p])
    ensures forall i :: 0 <= i < |out| ==> (Removed(out[i]) <==> Removed(levels[start + i]))
  {
    forall i | 0 <= i < |out| ensures Removed(out[i]) <==> Removed(levels[start + i]) {
      assert out[start + i - start] == out[i];
    }
  }
}
