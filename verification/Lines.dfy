/** The runs of a line, in logical order (`line_runs`, `runs`) and in visual order (`reordered_runs`). */
module Lines {
  import opened Options
  import opened BidiTypes
  import opened Reorder

  /** Positions `start..end` of the paragraph. */
  datatype BidiRun = BidiRun(direction: Direction, level: Level, start: nat, end: nat, removedByX9: seq<nat>)

  datatype ReorderedRun = ReorderedRun(direction: Direction, level: Level, start: nat, end: nat, indices: seq<nat>)

  function SpanEnd(start: nat, i: nat, levels: seq<Level>): (e: nat)
    requires start < i <= |levels|
    ensures i <= e <= |levels|
    decreases |levels| - i
  {
    if i == |levels| || levels[i] != levels[start] then i else SpanEnd(start, i + 1, levels)
  }

  /** `span_len`: how far the level at `start` goes on. */
  function SpanLen(start: nat, levels: seq<Level>): (len: nat)
    requires start < |levels|
    ensures 1 <= len <= |levels| - start
  {
    SpanEnd(start, start + 1, levels) - start
  }

  lemma {:induction false} SpanEndStops(start: nat, i: nat, levels: seq<Level>)
    requires start < i <= |levels| && forall j :: start <= j < i ==> levels[j] == levels[start]
    ensures forall j :: start <= j < SpanEnd(start, i, levels) ==> levels[j] == levels[start]
    ensures SpanEnd(start, i, levels) < |levels| ==> levels[SpanEnd(start, i, levels)] != levels[start]
    decreases |levels| - i
  {
    if i < |levels| && levels[i] == levels[start] {
      SpanEndStops(start, i + 1, levels);
    }
  }

  /** It is the longest stretch of the level at `start`. */
  lemma SpanIsMaximal(start: nat, levels: seq<Level>)
    requires start < |levels|
    ensures forall j :: start <= j < start + SpanLen(start, levels) ==> levels[j] == levels[start]
    ensures start + SpanLen(start, levels) < |levels| ==> levels[start + SpanLen(start, levels)] != levels[start]
  {
    SpanEndStops(start, start + 1, levels);
  }

  // ----- runs in logical order -----

  /** The runs an iterator that stands at `pos` still has to return. */
  function RunsFrom(levels: seq<Level>, first: nat, pos: nat): seq<BidiRun>
    decreases |levels| - pos
  {
    if pos >= |levels| then []
    else
      var len, level := SpanLen(pos, levels), levels[pos];
      var rest := RunsFrom(levels, first, pos + len);
      if Removed(level) then rest
      else [BidiRun(LevelDirection(level), level, first + pos, first + pos + len, [])] + rest
  }

  // The removed positions of a range.
  method RemovedIn(levels: seq<Level>, lineStart: nat, start: nat, end: nat) returns (removedByX9: seq<nat>)
    requires start <= end <= |levels|
    ensures removedByX9 == [] <==> forall k :: start <= k < end ==> !Removed(levels[k])
  {
    removedByX9 := [];
    for idx := start to end
      invariant removedByX9 == [] <==> forall k :: start <= k < idx ==> !Removed(levels[k])
    {
      if Removed(levels[idx]) {
        removedByX9 := removedByX9 + [idx + lineStart];
      }
    }
  }

  class RunIter {
    var pos: nat
    const levels: seq<Level>
    const lineStart: nat

    constructor (levels: seq<Level>, lineStart: nat)
      ensures this.levels == levels && this.lineStart == lineStart && pos == 0
      ensures Remaining() == RunsFrom(levels, lineStart, 0)
    {
      this.levels, this.lineStart, pos := levels, lineStart, 0;
    }

    ghost function Remaining(): seq<BidiRun>
      reads this
    {
      RunsFrom(levels, lineStart, pos)
    }

    /** Everything between removed characters is a run of one level, so no run holds a removed one. */
    method Next() returns (run: Option<BidiRun>)
      modifies this`pos
      ensures match run
              case Some(r) => old(Remaining()) == [r] + Remaining() && r.removedByX9 == []
              case None => old(Remaining()) == [] && Remaining() == []
    {
      while true
        invariant Remaining() == old(Remaining())
        decreases |levels| - pos
      {
        if pos >= |levels| {
          return None;
        }
        var start, len := pos, SpanLen(pos, levels);
        SpanIsMaximal(pos, levels);
        pos := pos + len;
        var level := levels[start];
        if !Removed(level) {
          var removedByX9 := RemovedIn(levels, lineStart, start, start + len);
          return Some(BidiRun(LevelDirection(level), level, lineStart + start, lineStart + start + len, removedByX9));
        }
      }
    }
  }

  /** A maximal range of one level, without removed characters. */
  ghost predicate IsLineRun(levels: seq<Level>, first: nat, r: BidiRun) {
    && first <= r.start < r.end <= first + |levels|
    && !Removed(r.level) && r.direction == LevelDirection(r.level) && r.removedByX9 == []
    && (forall k :: 0 <= k < |levels| && r.start <= first + k < r.end ==> levels[k] == r.level)
    && (r.start > first ==> levels[r.start - 1 - first] != r.level)
    && (r.end < first + |levels| ==> levels[r.end - first] != r.level)
  }

  ghost predicate Holds(r: BidiRun, k: nat) {
    r.start <= k < r.end
  }

  ghost predicate HeldByOne(runs: seq<BidiRun>, first: nat, k: nat) {
    exists i :: 0 <= i < |runs| && Holds(runs[i], first + k)
  }

  ghost predicate InLineOrder(runs: seq<BidiRun>) {
    forall i, j :: 0 <= i < j < |runs| ==> runs[i].end <= runs[j].start
  }

  lemma HeldByFirst(r: BidiRun, rest: seq<BidiRun>, first: nat, k: nat)
    ensures HeldByOne([r] + rest, first, k) <==> Holds(r, first + k) || HeldByOne(rest, first, k)
  {
    var runs := [r] + rest;
    assert runs[0] == r;
    if HeldByOne(rest, first, k) {
      var i :| 0 <= i < |rest| && Holds(rest[i], first + k);
      assert runs[i + 1] == rest[i];
    }
  }

  ghost predicate LineRuns(levels: seq<Level>, first: nat, pos: nat, runs: seq<BidiRun>) {
    && (forall i :: 0 <= i < |runs| ==> IsLineRun(levels, first, runs[i]) && first + pos <= runs[i].start)
    && InLineOrder(runs)
    && forall k: nat :: pos <= k < |levels| ==> (!Removed(levels[k]) <==> HeldByOne(runs, first, k))
  }

  lemma RunsAfterRemoved(levels: seq<Level>, first: nat, pos: nat, next: nat, rest: seq<BidiRun>)
    requires pos < next <= |levels| && LineRuns(levels, first, next, rest)
    requires forall k :: pos <= k < next ==> Removed(levels[k])
    ensures LineRuns(levels, first, pos, rest)
  {
    forall k: nat | pos <= k < next ensures !HeldByOne(rest, first, k) {
      forall i | 0 <= i < |rest| ensures !Holds(rest[i], first + k) {
      }
    }
  }

  lemma RunsAfterRun(levels: seq<Level>, first: nat, pos: nat, run: BidiRun, rest: seq<BidiRun>)
    requires IsLineRun(levels, first, run) && run.start == first + pos
    requires LineRuns(levels, first, run.end - first, rest)
    ensures LineRuns(levels, first, pos, [run] + rest)
  {
    hide HeldByOne;
    forall k: nat | pos <= k < |levels| ensures !Removed(levels[k]) <==> HeldByOne([run] + rest, first, k) {
      HeldByFirst(run, rest, first, k);
      if k < run.end - first {
        assert levels[k] == run.level;
      }
    }
  }

  lemma SpanIsRun(levels: seq<Level>, first: nat, pos: nat)
    requires pos < |levels| && !Removed(levels[pos])
    requires 0 < pos ==> levels[pos - 1] != levels[pos]
    ensures IsLineRun(levels, first, BidiRun(LevelDirection(levels[pos]), levels[pos], first + pos, first + pos + SpanLen(pos, levels), []))
  {
    SpanIsMaximal(pos, levels);
    hide LevelDirection, SpanLen;
  }

  lemma NoRunsLeft(levels: seq<Level>, first: nat, pos: nat)
    requires pos >= |levels|
    ensures LineRuns(levels, first, pos, [])
  {
  }

  /** The runs from `pos` on are maximal, come in order, and hold every remaining character that was
      not removed and no other. */
  lemma {:induction false} RunsPartition(levels: seq<Level>, first: nat, pos: nat)
    requires 0 < pos < |levels| ==> levels[pos - 1] != levels[pos]
    ensures LineRuns(levels, first, pos, RunsFrom(levels, first, pos))
    decreases |levels| - pos
  {
    hide *;
    if pos >= |levels| {
      NoRunsFrom(levels, first, pos);
      NoRunsLeft(levels, first, pos);
    } else {
      var end := pos + SpanLen(pos, levels);
      StretchIs(levels, pos, end);
      RunsPartition(levels, first, end);
      RunsFromStretch(levels, first, pos, end);
    }
  }

  lemma NoRunsFrom(levels: seq<Level>, first: nat, pos: nat)
    requires pos >= |levels|
    ensures RunsFrom(levels, first, pos) == []
  {
  }

  lemma RunsFromIs(levels: seq<Level>, first: nat, pos: nat, end: nat)
    requires pos < |levels| && end == pos + SpanLen(pos, levels)
    ensures RunsFrom(levels, first, pos) ==
            if Removed(levels[pos]) then RunsFrom(levels, first, end)
            else [BidiRun(LevelDirection(levels[pos]), levels[pos], first + pos, first + end, [])] + RunsFrom(levels, first, end)
  {
    hide SpanLen, LevelDirection;
  }

  lemma StretchIs(levels: seq<Level>, pos: nat, end: nat)
    requires pos < |levels| && end == pos + SpanLen(pos, levels)
    ensures pos < end <= |levels| && (Removed(levels[pos]) ==> forall k :: pos <= k < end ==> Removed(levels[k]))
    ensures end < |levels| ==> levels[end - 1] != levels[end]
  {
    SpanIsMaximal(pos, levels);
  }

  lemma RunsFromStretch(levels: seq<Level>, first: nat, pos: nat, end: nat)
    requires pos < |levels| && end == pos + SpanLen(pos, levels) && LineRuns(levels, first, end, RunsFrom(levels, first, end))
    requires 0 < pos ==> levels[pos - 1] != levels[pos]
    ensures LineRuns(levels, first, pos, RunsFrom(levels, first, pos))
  {
    hide *;
    RunsFromIs(levels, first, pos, end);
    StretchIs(levels, pos, end);
    if Removed(levels[pos]) {
      RunsAfterRemoved(levels, first, pos, end, RunsFrom(levels, first, end));
    } else {
      SpanIsRun(levels, first, pos);
      RunsAfterRun(levels, first, pos, BidiRun(LevelDirection(levels[pos]), levels[pos], first + pos, first + end, []),
                   RunsFrom(levels, first, end));
    }
  }

  // ----- runs in visual order -----

  function MinOf(s: seq<nat>): (m: nat)
    requires s != []
    ensures m in s && forall i :: 0 <= i < |s| ==> m <= s[i]
  {
    if |s| == 1 then s[0]
    else
      var m := MinOf(s[..|s| - 1]);
      if s[|s| - 1] < m then s[|s| - 1] else m
  }

  function MaxOf(s: seq<nat>): (m: nat)
    requires s != []
    ensures m in s && forall i :: 0 <= i < |s| ==> s[i] <= m
  {
    if |s| == 1 then s[0]
    else
      var m := MaxOf(s[..|s| - 1]);
      if s[|s| - 1] < m then m else s[|s| - 1]
  }

  function PieceAt(order: seq<nat>, lv: seq<Level>, idx: nat): ReorderedRun
    requires idx < |lv| <= |order|
  {
    var piece := order[idx..idx + SpanLen(idx, lv)];
    ReorderedRun(LevelDirection(lv[idx]), lv[idx], MinOf(piece), MaxOf(piece) + 1, piece)
  }

  /** The pieces from visual position `idx` on, when `lv` are the levels by visual position. */
  function PiecesFrom(order: seq<nat>, lv: seq<Level>, idx: nat): seq<ReorderedRun>
    requires |lv| <= |order|
    decreases |lv| - idx
  {
    if idx >= |lv| then []
    else if Removed(lv[idx]) then PiecesFrom(order, lv, idx + SpanLen(idx, lv))
    else [PieceAt(order, lv, idx)] + PiecesFrom(order, lv, idx + SpanLen(idx, lv))
  }

  /** The level the source reads for every visual position: `levels` belongs to the line, the indices in
      `order` to the paragraph. */
  function LevelsAt(levels: seq<Level>, order: seq<nat>): (lv: seq<Level>)
    requires forall v :: 0 <= v < |order| ==> order[v] < |levels|
    ensures |lv| == |order|
  {
    seq(|order|, v requires 0 <= v < |order| => levels[order[v]])
  }

  function WithLevel(lv: seq<Level>): (r: seq<Level>)
    ensures |r| <= |lv|
    ensures (forall i :: 0 <= i < |lv| ==> !Removed(lv[i])) ==> r == lv
  {
    if lv == [] then []
    else WithLevel(lv[..|lv| - 1]) + (if Removed(lv[|lv| - 1]) then [] else [lv[|lv| - 1]])
  }

  lemma PiecesStep(order: seq<nat>, lv: seq<Level>, idx: nat, runs: seq<ReorderedRun>)
    requires idx < |lv| <= |order|
    ensures runs + PiecesFrom(order, lv, idx)
            == (if Removed(lv[idx]) then runs else runs + [PieceAt(order, lv, idx)]) + PiecesFrom(order, lv, idx + SpanLen(idx, lv))
  {
    hide SpanLen, PieceAt;
    var rest := PiecesFrom(order, lv, idx + SpanLen(idx, lv));
    assert runs + ([PieceAt(order, lv, idx)] + rest) == (runs + [PieceAt(order, lv, idx)]) + rest;
  }

  lemma NoPiecesLeft(order: seq<nat>, lv: seq<Level>, runs: seq<ReorderedRun>)
    requires |lv| <= |order|
    ensures runs + PiecesFrom(order, lv, |lv|) == runs && [] + PiecesFrom(order, lv, 0) == PiecesFrom(order, lv, 0)
  {
  }

  /** The loops of `reordered_runs`. An index outside the line's levels makes the source panic. */
  method ReorderedPieces(levels: seq<Level>, reordered: seq<nat>) returns (runs: seq<ReorderedRun>)
    requires forall v :: 0 <= v < |reordered| ==> reordered[v] < |levels|
    ensures runs == PiecesFrom(reordered, WithLevel(LevelsAt(levels, reordered)), 0)
  {
    var reorderedLevels: seq<Level> := seq(|reordered|, i => NO_LEVEL);
    for visIdx := 0 to |reordered|
      invariant |reorderedLevels| == |reordered|
      invariant forall v :: 0 <= v < visIdx ==> reorderedLevels[v] == levels[reordered[v]]
    {
      reorderedLevels := reorderedLevels[visIdx := levels[reordered[visIdx]]];
    }
    assert reorderedLevels == LevelsAt(levels, reordered);
    hide WithLevel, LevelsAt, SpanLen, PiecesFrom, MinOf, MaxOf;
    reorderedLevels := WithLevel(reorderedLevels);
    hide *;
    runs := PiecesOfLevels(reordered, reorderedLevels);
  }

  // The second loop of `reordered_runs`.
  method PiecesOfLevels(reordered: seq<nat>, reorderedLevels: seq<Level>) returns (runs: seq<ReorderedRun>)
    requires |reorderedLevels| <= |reordered|
    ensures runs == PiecesFrom(reordered, reorderedLevels, 0)
  {
    NoPiecesLeft(reordered, reorderedLevels, []);
    hide *;
    runs := [];
    var idx := 0;
    while idx < |reorderedLevels|
      invariant idx <= |reorderedLevels|
      invariant runs + PiecesFrom(reordered, reorderedLevels, idx) == PiecesFrom(reordered, reorderedLevels, 0)
    {
      PiecesStep(reordered, reorderedLevels, idx, runs);
      var len := SpanLen(idx, reorderedLevels);
      var level := reorderedLevels[idx];
      if !Removed(level) {
        runs := runs + [PieceAt(reordered, reorderedLevels, idx)];
      }
      idx := idx + len;
    }
    NoPiecesLeft(reordered, reorderedLevels, runs);
  }

  function AllIndices(runs: seq<ReorderedRun>): seq<nat> {
    if runs == [] then [] else runs[0].indices + AllIndices(runs[1..])
  }

  lemma PieceComesFirst(order: seq<nat>, lv: seq<Level>, idx: nat)
    requires idx < |lv| <= |order| && !Removed(lv[idx])
    ensures PiecesFrom(order, lv, idx) == [PieceAt(order, lv, idx)] + PiecesFrom(order, lv, idx + SpanLen(idx, lv))
  {
    hide SpanLen, PieceAt;
  }

  lemma NothingLeft(order: seq<nat>, lv: seq<Level>, idx: nat)
    requires idx >= |lv| && |lv| <= |order|
    ensures PiecesFrom(order, lv, idx) == [] && AllIndices([]) == []
  {
  }

  lemma IndicesOfFirst(r: ReorderedRun, rest: seq<ReorderedRun>)
    ensures AllIndices([r] + rest) == r.indices + AllIndices(rest)
  {
    assert ([r] + rest)[1..] == rest;
  }

  lemma PieceHolds(order: seq<nat>, lv: seq<Level>, idx: nat)
    requires idx < |lv| <= |order|
    ensures PieceAt(order, lv, idx).indices == order[idx..idx + SpanLen(idx, lv)]
  {
    hide SpanLen, MinOf, MaxOf;
  }

  /** The pieces, put side by side, are the visual order. */
  lemma {:induction false} PiecesMakeOrder(order: seq<nat>, lv: seq<Level>, idx: nat)
    requires idx <= |lv| == |order| && forall i :: 0 <= i < |lv| ==> !Removed(lv[i])
    ensures AllIndices(PiecesFrom(order, lv, idx)) == order[idx..]
    decreases |lv| - idx
  {
    hide *;
    if idx < |lv| {
      var next := idx + SpanLen(idx, lv);
      PiecesMakeOrder(order, lv, next);
      PieceComesFirst(order, lv, idx);
      PieceHolds(order, lv, idx);
      IndicesOfFirst(PieceAt(order, lv, idx), PiecesFrom(order, lv, next));
      assert order[idx..] == order[idx..next] + order[next..];
    } else {
      NothingLeft(order, lv, idx);
    }
  }

  /** `s..e` is a maximal stretch of one level. */
  ghost predicate LevelRun(c: seq<Level>, level: Level, s: nat, e: nat) {
    && s < e <= |c|
    && (forall j :: s <= j < e ==> c[j] == level)
    && (s > 0 ==> c[s - 1] != level)
    && (e < |c| ==> c[e] != level)
  }

  /** `r` shows the level run `s..e` of the characters that are left, in its reading direction, and its
      range is the range of that run in the paragraph. */
  ghost predicate ShowsRun(c: seq<Level>, shown: seq<nat>, r: ReorderedRun, s: nat, e: nat) {
    && |shown| == |c| && LevelRun(c, r.level, s, e)
    && r.direction == LevelDirection(r.level)
    && r.indices == (if r.direction == Rtl then Rev(shown[s..e]) else shown[s..e])
    && r.start == shown[s] && r.end == shown[e - 1] + 1
  }

  ghost predicate OntoAll(n: nat, pi: seq<nat>) {
    NoDuplicates(pi) && forall x: nat :: x < n ==> x in pi
  }

  /** A maximal stretch of one level in the visual order. */
  ghost predicate VisualStretch(c: seq<Level>, pi: seq<nat>, a: nat, b: nat)
    requires Moves(c, pi)
  {
    && a < b <= |c|
    && (forall t :: a <= t < b ==> c[pi[t]] == c[pi[a]])
    && (a > 0 ==> c[pi[a - 1]] != c[pi[a]])
    && (b < |c| ==> c[pi[b]] != c[pi[a]])
  }

  lemma {:induction false} Progression(c: seq<Level>, pi: seq<nat>, a: nat, b: nat, t: nat)
    requires RunsInOrder(c, pi) && VisualStretch(c, pi, a, b) && a <= t < b
    ensures pi[t] == if IsOdd(c[pi[a]]) then pi[a] - (t - a) else pi[a] + (t - a)
    decreases t
  {
    if t > a {
      Progression(c, pi, a, b, t - 1);
    }
  }

  /** The logical range that the stretch shows. */
  function RunStart(c: seq<Level>, pi: seq<nat>, a: nat, b: nat): nat
    requires Moves(c, pi) && a < b <= |c|
  {
    if IsOdd(c[pi[a]]) then pi[b - 1] else pi[a]
  }

  lemma StretchPositions(c: seq<Level>, pi: seq<nat>, a: nat, b: nat)
    requires RunsInOrder(c, pi) && VisualStretch(c, pi, a, b)
    ensures RunStart(c, pi, a, b) + (b - a) <= |c|
    ensures forall t: nat :: a <= t < b ==>
              pi[t] == if IsOdd(c[pi[a]]) then RunStart(c, pi, a, b) + (b - 1 - t) else RunStart(c, pi, a, b) + (t - a)
  {
    Progression(c, pi, a, b, b - 1);
    hide IsOdd, NextShown;
    forall t: nat | a <= t < b
      ensures pi[t] == if IsOdd(c[pi[a]]) then RunStart(c, pi, a, b) + (b - 1 - t) else RunStart(c, pi, a, b) + (t - a)
    {
      Progression(c, pi, a, b, t);
    }
  }

  lemma StretchLevels(c: seq<Level>, pi: seq<nat>, a: nat, b: nat)
    requires RunsInOrder(c, pi) && VisualStretch(c, pi, a, b) && RunStart(c, pi, a, b) + (b - a) <= |c|
    ensures forall j: nat :: RunStart(c, pi, a, b) <= j < RunStart(c, pi, a, b) + (b - a) ==> c[j] == c[pi[a]]
  {
    StretchPositions(c, pi, a, b);
    var s := RunStart(c, pi, a, b);
    hide RunStart, RunsInOrder, IsOdd;
    forall j: nat | s <= j < s + (b - a) ensures c[j] == c[pi[a]] {
      var t: nat := if IsOdd(c[pi[a]]) then b - 1 - (j - s) else a + (j - s);
      assert pi[t] == j;
    }
  }

  lemma NextAtLevel(c: seq<Level>, pi: seq<nat>, t: nat)
    requires RunsInOrder(c, pi) && t < |c| && pi[t] + 1 < |c| && c[pi[t]] == c[pi[t] + 1]
    ensures if IsOdd(c[pi[t]]) then t > 0 && pi[t - 1] == pi[t] + 1 else t + 1 < |c| && pi[t + 1] == pi[t] + 1
  {
    assert NextShown(c, pi, t, Reading(c[pi[t]]));
  }

  lemma NotAfter(c: seq<Level>, pi: seq<nat>, a: nat, b: nat, e: nat)
    requires RunsInOrder(c, pi) && VisualStretch(c, pi, a, b) && 0 < e < |c|
    requires e - 1 == if IsOdd(c[pi[a]]) then pi[a] else pi[b - 1]
    ensures c[e] != c[pi[a]]
  {
    assert Moves(c, pi);
    hide RunsInOrder, IsOdd;
    if c[e] == c[pi[a]] {
      NextAtLevel(c, pi, if IsOdd(c[pi[a]]) then a else b - 1);
    }
  }

  lemma NotBefore(c: seq<Level>, pi: seq<nat>, a: nat, b: nat, s: nat)
    requires RunsInOrder(c, pi) && OntoAll(|c|, pi) && VisualStretch(c, pi, a, b) && 0 < s < |c|
    requires s == if IsOdd(c[pi[a]]) then pi[b - 1] else pi[a]
    ensures c[s - 1] != c[pi[a]]
  {
    assert Moves(c, pi);
    var t := ShownAt(pi, |c|, s - 1);
    hide RunsInOrder, IsOdd;
    if c[s - 1] == c[pi[a]] {
      NextAtLevel(c, pi, t);
    }
  }

  lemma ShownAt(pi: seq<nat>, n: nat, x: nat) returns (t: nat)
    requires OntoAll(n, pi) && x < n
    ensures t < |pi| && pi[t] == x
  {
    assert x in pi;
    t :| t < |pi| && pi[t] == x;
  }

  lemma StretchMaximal(c: seq<Level>, pi: seq<nat>, a: nat, b: nat)
    requires RunsInOrder(c, pi) && OntoAll(|c|, pi) && VisualStretch(c, pi, a, b)
    requires RunStart(c, pi, a, b) + (b - a) <= |c|
    ensures RunStart(c, pi, a, b) > 0 ==> c[RunStart(c, pi, a, b) - 1] != c[pi[a]]
    ensures RunStart(c, pi, a, b) + (b - a) < |c| ==> c[RunStart(c, pi, a, b) + (b - a)] != c[pi[a]]
  {
    var s, e := RunStart(c, pi, a, b), RunStart(c, pi, a, b) + (b - a);
    Progression(c, pi, a, b, b - 1);
    hide RunsInOrder, OntoAll, VisualStretch, IsOdd;
    if e < |c| {
      NotAfter(c, pi, a, b, e);
    }
    if s > 0 {
      NotBefore(c, pi, a, b, s);
    }
  }

  /** What a visual stretch holds is a level run, forwards or backwards. */
  lemma StretchShows(c: seq<Level>, pi: seq<nat>, shown: seq<nat>, a: nat, b: nat)
    requires RunsInOrder(c, pi) && VisualStretch(c, pi, a, b) && |shown| == |c|
    requires RunStart(c, pi, a, b) + (b - a) <= |c|
    ensures Arrange(c, pi, shown)[a..b]
            == var run := shown[RunStart(c, pi, a, b)..RunStart(c, pi, a, b) + (b - a)];
               if IsOdd(c[pi[a]]) then Rev(run) else run
  {
    StretchPositions(c, pi, a, b);
    assert Moves(c, pi) && a < b <= |c|;
    var s := RunStart(c, pi, a, b);
    hide RunStart, VisualStretch, RunsInOrder, Rev, IsOdd;
    if IsOdd(c[pi[a]]) {
      ShowsBackwards(c, pi, shown, a, b, s);
    } else {
      ShowsForwards(c, pi, shown, a, b, s);
    }
  }

  lemma ShowsForwards(c: seq<Level>, pi: seq<nat>, shown: seq<nat>, a: nat, b: nat, s: nat)
    requires Moves(c, pi) && |shown| == |c| && a < b <= |c| && s + (b - a) <= |c|
    requires forall t :: a <= t < b ==> pi[t] == s + (t - a)
    ensures Arrange(c, pi, shown)[a..b] == shown[s..s + (b - a)]
  {
    var piece, run := Arrange(c, pi, shown)[a..b], shown[s..s + (b - a)];
    forall i | 0 <= i < b - a ensures piece[i] == run[i] {
      assert pi[a + i] == s + (a + i - a);
    }
  }

  lemma ShowsBackwards(c: seq<Level>, pi: seq<nat>, shown: seq<nat>, a: nat, b: nat, s: nat)
    requires Moves(c, pi) && |shown| == |c| && a < b <= |c| && s + (b - a) <= |c|
    requires forall t :: a <= t < b ==> pi[t] == s + (b - 1 - t)
    ensures Arrange(c, pi, shown)[a..b] == Rev(shown[s..s + (b - a)])
  {
    var piece, back := Arrange(c, pi, shown)[a..b], Rev(shown[s..s + (b - a)]);
    forall i | 0 <= i < b - a ensures piece[i] == back[i] {
      assert pi[a + i] == s + (b - 1 - (a + i));
    }
  }

  ghost predicate Ascending(s: seq<nat>) {
    forall i, j :: 0 <= i < j < |s| ==> s[i] < s[j]
  }

  ghost predicate Within(s: seq<nat>, low: nat, high: nat) {
    forall i :: 0 <= i < |s| ==> low <= s[i] <= high
  }

  lemma RunWithin(run: seq<nat>)
    requires run != [] && Ascending(run)
    ensures Within(run, run[0], run[|run| - 1])
  {
  }

  lemma RevWithin(run: seq<nat>, low: nat, high: nat)
    requires Within(run, low, high)
    ensures Within(Rev(run), low, high)
  {
  }

  lemma RevEnds(run: seq<nat>)
    requires run != []
    ensures |Rev(run)| == |run| && Rev(run)[|run| - 1] == run[0] && Rev(run)[0] == run[|run| - 1]
  {
  }

  lemma BoundsAre(s: seq<nat>, low: nat, high: nat)
    requires s != [] && Within(s, low, high) && low in s && high in s
    ensures MinOf(s) == low && MaxOf(s) == high
  {
    hide MinOf, MaxOf;
  }

  lemma BoundsOfRun(run: seq<nat>)
    requires run != [] && Ascending(run)
    ensures MinOf(run) == run[0] && MaxOf(run) == run[|run| - 1]
    ensures MinOf(Rev(run)) == run[0] && MaxOf(Rev(run)) == run[|run| - 1]
  {
    hide *;
    RunWithin(run);
    BoundsAre(run, run[0], run[|run| - 1]);
    RevWithin(run, run[0], run[|run| - 1]);
    RevEnds(run);
    BoundsAre(Rev(run), run[0], run[|run| - 1]);
  }

  ghost predicate SomeRun(c: seq<Level>, shown: seq<nat>, r: ReorderedRun) {
    exists s: nat, e: nat :: ShowsRun(c, shown, r, s, e)
  }

  lemma SpanIsStretch(c: seq<Level>, pi: seq<nat>, lv: seq<Level>, idx: nat)
    requires Moves(c, pi) && |lv| == |c| && forall t :: 0 <= t < |c| ==> lv[t] == c[pi[t]]
    requires idx < |lv| && (idx > 0 ==> lv[idx - 1] != lv[idx])
    ensures VisualStretch(c, pi, idx, idx + SpanLen(idx, lv))
  {
    SpanIsMaximal(idx, lv);
    hide SpanLen;
    var b := idx + SpanLen(idx, lv);
    forall t | idx <= t < b ensures c[pi[t]] == c[pi[idx]] {
      assert lv[t] == lv[idx];
    }
  }

  /** `shown` in the visual order `pi`, with the levels `lv` by visual position. */
  ghost predicate ShownLine(c: seq<Level>, pi: seq<nat>, shown: seq<nat>, lv: seq<Level>) {
    && RunsInOrder(c, pi) && OntoAll(|c|, pi) && |shown| == |c| == |lv| && Ascending(shown)
    && forall t :: 0 <= t < |c| ==> lv[t] == c[pi[t]] && !Removed(lv[t])
  }

  lemma StretchIsLevelRun(c: seq<Level>, pi: seq<nat>, a: nat, b: nat)
    requires RunsInOrder(c, pi) && OntoAll(|c|, pi) && VisualStretch(c, pi, a, b)
    ensures LevelRun(c, c[pi[a]], RunStart(c, pi, a, b), RunStart(c, pi, a, b) + (b - a))
  {
    StretchPositions(c, pi, a, b);
    StretchLevels(c, pi, a, b);
    StretchMaximal(c, pi, a, b);
    assert a < b;
    hide RunStart, RunsInOrder, OntoAll, VisualStretch;
  }

  lemma RunIsShown(c: seq<Level>, shown: seq<nat>, level: Level, s: nat, e: nat)
    requires LevelRun(c, level, s, e) && |shown| == |c|
    ensures SomeRun(c, shown, RunOf(shown[s..e], level))
  {
    assert ShowsRun(c, shown, RunOf(shown[s..e], level), s, e);
  }

  /** Where the run that is shown from visual position `idx` on starts. */
  lemma RunOfStretch(c: seq<Level>, pi: seq<nat>, shown: seq<nat>, a: nat, b: nat) returns (s: nat)
    requires RunsInOrder(c, pi) && OntoAll(|c|, pi) && VisualStretch(c, pi, a, b) && |shown| == |c|
    ensures LevelRun(c, c[pi[a]], s, s + (b - a))
    ensures Arrange(c, pi, shown)[a..b] == if IsOdd(c[pi[a]]) then Rev(shown[s..s + (b - a)]) else shown[s..s + (b - a)]
  {
    StretchIsLevelRun(c, pi, a, b);
    s := RunStart(c, pi, a, b);
    StretchShows(c, pi, shown, a, b);
  }

  lemma PieceFromRun(c: seq<Level>, shown: seq<nat>, order: seq<nat>, lv: seq<Level>, idx: nat, s: nat, e: nat)
    requires idx < |lv| <= |order| && |shown| == |c| && Ascending(shown)
    requires LevelRun(c, lv[idx], s, e)
    requires order[idx..idx + SpanLen(idx, lv)] == if IsOdd(lv[idx]) then Rev(shown[s..e]) else shown[s..e]
    ensures SomeRun(c, shown, PieceAt(order, lv, idx))
  {
    RunIsShown(c, shown, lv[idx], s, e);
    AscendingSlice(shown, s, e);
    hide *;
    PieceIs(order, lv, idx, shown[s..e]);
  }

  lemma ShownLineHas(c: seq<Level>, pi: seq<nat>, shown: seq<nat>, lv: seq<Level>, idx: nat)
    requires ShownLine(c, pi, shown, lv) && idx < |lv| && (idx > 0 ==> lv[idx - 1] != lv[idx])
    ensures Ascending(shown) && RunsInOrder(c, pi) && OntoAll(|c|, pi) && |shown| == |c| == |lv|
    ensures Moves(c, pi) && pi[idx] < |c| && lv[idx] == c[pi[idx]]
    ensures idx + SpanLen(idx, lv) <= |c| && VisualStretch(c, pi, idx, idx + SpanLen(idx, lv))
  {
    SpanIsStretch(c, pi, lv, idx);
  }

  lemma PieceShowsRun(c: seq<Level>, pi: seq<nat>, shown: seq<nat>, lv: seq<Level>, idx: nat)
    requires ShownLine(c, pi, shown, lv)
    requires idx < |lv| && (idx > 0 ==> lv[idx - 1] != lv[idx])
    ensures SomeRun(c, shown, PieceAt(Arrange(c, pi, shown), lv, idx))
  {
    hide *;
    ShownLineHas(c, pi, shown, lv, idx);
    var b := idx + SpanLen(idx, lv);
    var s := RunOfStretch(c, pi, shown, idx, b);
    PieceFromRun(c, shown, Arrange(c, pi, shown), lv, idx, s, s + (b - idx));
  }

  lemma AscendingSlice(w: seq<nat>, s: nat, e: nat)
    requires Ascending(w) && s <= e <= |w|
    ensures Ascending(w[s..e])
  {
  }

  /** A run of the line as it is shown. */
  function RunOf(run: seq<nat>, level: Level): ReorderedRun
    requires run != []
  {
    ReorderedRun(LevelDirection(level), level, run[0], run[|run| - 1] + 1, if IsOdd(level) then Rev(run) else run)
  }

  lemma PieceIs(order: seq<nat>, lv: seq<Level>, idx: nat, run: seq<nat>)
    requires idx < |lv| <= |order| && Ascending(run) && run != []
    requires order[idx..idx + SpanLen(idx, lv)] == if IsOdd(lv[idx]) then Rev(run) else run
    ensures PieceAt(order, lv, idx) == RunOf(run, lv[idx])
  {
    hide MinOf, MaxOf, Rev;
    BoundsOfRun(run);
  }

  ghost predicate AllShowRuns(c: seq<Level>, shown: seq<nat>, runs: seq<ReorderedRun>) {
    forall i :: 0 <= i < |runs| ==> SomeRun(c, shown, runs[i])
  }

  lemma OneMoreShowsRun(c: seq<Level>, shown: seq<nat>, r: ReorderedRun, rest: seq<ReorderedRun>)
    requires SomeRun(c, shown, r) && AllShowRuns(c, shown, rest)
    ensures AllShowRuns(c, shown, [r] + rest)
  {
    hide SomeRun;
  }

  lemma ShownIsKept(c: seq<Level>, pi: seq<nat>, shown: seq<nat>, lv: seq<Level>)
    requires ShownLine(c, pi, shown, lv)
    ensures Moves(c, pi) && |shown| == |c| == |lv| == |Arrange(c, pi, shown)|
    ensures forall i :: 0 <= i < |lv| ==> !Removed(lv[i])
  {
    hide OntoAll, Ascending, Removed;
  }

  lemma ShowsNothing(c: seq<Level>, shown: seq<nat>)
    ensures AllShowRuns(c, shown, [])
  {
  }

  lemma {:induction false} PiecesShowRuns(c: seq<Level>, pi: seq<nat>, shown: seq<nat>, lv: seq<Level>, idx: nat)
    requires ShownLine(c, pi, shown, lv)
    requires idx <= |lv| && (0 < idx < |lv| ==> lv[idx - 1] != lv[idx])
    ensures AllShowRuns(c, shown, PiecesFrom(Arrange(c, pi, shown), lv, idx))
    decreases |lv| - idx
  {
    hide *;
    ShownIsKept(c, pi, shown, lv);
    if idx < |lv| {
      PieceShowsRun(c, pi, shown, lv, idx);
      StretchIs(lv, idx, idx + SpanLen(idx, lv));
      PiecesShowRuns(c, pi, shown, lv, idx + SpanLen(idx, lv));
      OneMoreShowsRun(c, shown, PieceAt(Arrange(c, pi, shown), lv, idx), PiecesFrom(Arrange(c, pi, shown), lv, idx + SpanLen(idx, lv)));
      PieceComesFirst(Arrange(c, pi, shown), lv, idx);
    } else {
      ShowsNothing(c, shown);
      NothingLeft(Arrange(c, pi, shown), lv, idx);
    }
  }

  /** `w` are the positions of the characters `kept`, in order. */
  ghost predicate PositionsOf(levels: seq<Level>, first: nat, a: nat, w: seq<nat>, kept: seq<Level>) {
    && |w| == |kept| && a <= |levels| && Ascending(w)
    && forall i :: 0 <= i < |w| ==> first <= w[i] < first + a && levels[w[i] - first] == kept[i]
  }

  lemma OneMorePosition(levels: seq<Level>, first: nat, a: nat, w: seq<nat>, kept: seq<Level>)
    requires PositionsOf(levels, first, a, w, kept) && a < |levels|
    ensures PositionsOf(levels, first, a + 1, w, kept)
    ensures PositionsOf(levels, first, a + 1, w + [first + a], kept + [levels[a]])
  {
  }

  lemma {:induction false} ShownAscends(levels: seq<Level>, first: nat, a: nat)
    requires a <= |levels|
    ensures PositionsOf(levels, first, a, KeptPositions(levels, first, a), KeptUpTo(levels, a))
  {
    if a > 0 {
      ShownAscends(levels, first, a - 1);
      OneMorePosition(levels, first, a - 1, KeptPositions(levels, first, a - 1), KeptUpTo(levels, a - 1));
      hide PositionsOf;
    }
  }

  /** `pi` is the visual order of the line. */
  lemma OrderIsArranged(levels: seq<Level>, first: nat) returns (pi: seq<nat>)
    ensures pi == VisualOrder(Kept(levels)) && Moves(Kept(levels), pi) && OntoAll(|Kept(levels)|, pi)
    ensures LineOrder(levels, first) == Arrange(Kept(levels), pi, Shown(levels, first))
  {
    var c, shown := Kept(levels), Shown(levels, first);
    pi := VisualOrder(c);
    DownStaysMoves(c, Highest(c), LowestOdd(c), Identity(|c|));
    DownArranges(c, Highest(c), LowestOdd(c), Identity(|c|), shown);
    assert Arrange(c, Identity(|c|), shown) == shown;
    DownRearranges(c, Highest(c), LowestOdd(c), Identity(|c|));
    forall x: nat | x < |c| ensures x in pi {
      assert Identity(|c|)[x] == x;
    }
  }

  lemma KeptLevels(levels: seq<Level>)
    requires LineOk(levels)
    ensures forall j :: 0 <= j < |Kept(levels)| ==> !Removed(Kept(levels)[j]) && 0 <= Kept(levels)[j] <= NO_ODD_LEVEL
  {
    ShownAscends(levels, 0, |levels|);
  }

  lemma OrderShowsRuns(levels: seq<Level>, pi: seq<nat>)
    requires LineOk(levels) && (HasOdd(Kept(levels)) || !NeighboursAt126(Kept(levels)))
    requires pi == VisualOrder(Kept(levels))
    ensures RunsInOrder(Kept(levels), pi)
  {
    var c := Kept(levels);
    KeptLevels(levels);
    hide ReverseDown, Highest, LowestOdd, RunsInOrder, NeighboursAt126, HasOdd, Kept;
    assert NoDuplicates(Identity(|c|));
    ConformsToL2(c, Identity(|c|));
    L2ShowsRuns(c);
  }

  /** Line and paragraph indices agree on a line that starts the paragraph. */
  lemma IndicesAgree(levels: seq<Level>)
    ensures forall v :: 0 <= v < |LineOrder(levels, 0)| ==> LineOrder(levels, 0)[v] < |levels|
  {
    OutputIsPermutation(levels, 0);
    var order := LineOrder(levels, 0);
    forall v | 0 <= v < |order| ensures order[v] < |levels| {
      assert order[v] in order;
    }
  }

  lemma LevelsShown(levels: seq<Level>, pi: seq<nat>)
    requires Moves(Kept(levels), pi) && LineOrder(levels, 0) == Arrange(Kept(levels), pi, Shown(levels, 0))
    requires forall v :: 0 <= v < |LineOrder(levels, 0)| ==> LineOrder(levels, 0)[v] < |levels|
    ensures forall v :: 0 <= v < |pi| ==> LevelsAt(levels, LineOrder(levels, 0))[v] == Kept(levels)[pi[v]]
  {
    ShownAscends(levels, 0, |levels|);
    hide LineOrder;
    forall v | 0 <= v < |pi| ensures LevelsAt(levels, LineOrder(levels, 0))[v] == Kept(levels)[pi[v]] {
      assert LineOrder(levels, 0)[v] == Shown(levels, 0)[pi[v]];
    }
  }

  lemma ConformingLineIsShown(levels: seq<Level>)
    requires LineOk(levels) && (HasOdd(Kept(levels)) || !NeighboursAt126(Kept(levels)))
    ensures forall v :: 0 <= v < |LineOrder(levels, 0)| ==> LineOrder(levels, 0)[v] < |levels|
    ensures var order := LineOrder(levels, 0);
            var runs := PiecesFrom(order, WithLevel(LevelsAt(levels, order)), 0);
            && AllIndices(runs) == order
            && AllShowRuns(Kept(levels), Shown(levels, 0), runs)
  {
    var c, shown := Kept(levels), Shown(levels, 0);
    IndicesAgree(levels);
    var pi := LineIsShown(levels);
    var order := LineOrder(levels, 0);
    var lv := LevelsAt(levels, order);
    ShownAreKept(c, pi, shown, lv);
    assert order[0..] == order;
    hide *;
    PiecesMakeOrder(order, lv, 0);
    PiecesShowRuns(c, pi, shown, lv, 0);
  }

  lemma ShownAreKept(c: seq<Level>, pi: seq<nat>, shown: seq<nat>, lv: seq<Level>)
    requires ShownLine(c, pi, shown, lv)
    ensures |lv| == |c| && forall v :: 0 <= v < |lv| ==> !Removed(lv[v])
  {
    hide RunsInOrder, OntoAll, Ascending;
  }

  lemma LineIsShown(levels: seq<Level>) returns (pi: seq<nat>)
    requires LineOk(levels) && (HasOdd(Kept(levels)) || !NeighboursAt126(Kept(levels)))
    requires forall v :: 0 <= v < |LineOrder(levels, 0)| ==> LineOrder(levels, 0)[v] < |levels|
    ensures Moves(Kept(levels), pi) && LineOrder(levels, 0) == Arrange(Kept(levels), pi, Shown(levels, 0))
    ensures ShownLine(Kept(levels), pi, Shown(levels, 0), LevelsAt(levels, LineOrder(levels, 0)))
  {
    pi := OrderIsArranged(levels, 0);
    OrderShowsRuns(levels, pi);
    ShownAscends(levels, 0, |levels|);
    LevelsShown(levels, pi);
    KeptLevels(levels);
    assert Ascending(Shown(levels, 0));
    hide LineOrder, Arrange, RunsInOrder, OntoAll, Ascending, LevelsAt, VisualOrder, Shown, Kept;
  }

  // ----- lines further down a paragraph -----

  /** The loop of `reordered_runs` stays inside the levels of the line just when adding the start of the
      line keeps every character that is left inside them. */
  lemma IndexedInRangeIff(levels: seq<Level>, first: nat)
    ensures (forall v :: 0 <= v < |LineOrder(levels, first)| ==> LineOrder(levels, first)[v] < |levels|)
            <==> (forall j: nat :: j < |levels| && !Removed(levels[j]) ==> first + j < |levels|)
  {
    OutputIsPermutation(levels, first);
    var order := LineOrder(levels, first);
    if forall v :: 0 <= v < |order| ==> order[v] < |levels| {
      forall j: nat | j < |levels| && !Removed(levels[j]) ensures first + j < |levels| {
        assert first + j in order;
      }
    }
    if forall j: nat :: j < |levels| && !Removed(levels[j]) ==> first + j < |levels| {
      forall v | 0 <= v < |order| ensures order[v] < |levels| {
        assert order[v] in order;
        assert !Removed(levels[order[v] - first]);
      }
    }
  }

  /** The level the source reads for a visual position is the level of the character shown there. */
  ghost predicate ReadsOwnLevel(levels: seq<Level>, first: nat, x: nat) {
    first <= x < |levels| && levels[x] == levels[x - first]
  }

  /** It indexes the levels of a line with positions of the paragraph, which gives every character its own
      level only on the line that starts the paragraph. */
  lemma RightLevelsIff(levels: seq<Level>, first: nat)
    ensures (forall x :: x in LineOrder(levels, first) ==> ReadsOwnLevel(levels, first, x)) <==> first == 0 || Kept(levels) == []
  {
    OutputIsPermutation(levels, first);
    var order := LineOrder(levels, first);
    if Kept(levels) != [] {
      var j := LastKept(levels, |levels|);
      assert first + j in order;
    }
  }

  lemma {:induction false} LastKept(levels: seq<Level>, a: nat) returns (j: nat)
    requires a <= |levels| && KeptUpTo(levels, a) != []
    ensures j < a && !Removed(levels[j]) && forall i :: j < i < a ==> Removed(levels[i])
  {
    if Removed(levels[a - 1]) {
      j := LastKept(levels, a - 1);
    } else {
      j := a - 1;
    }
  }
}
