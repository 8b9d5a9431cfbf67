/** `reordered_runs` on a line that starts its paragraph: when its runs are those of the line. */
module ReorderedLines {
  import opened BidiTypes
  import opened Reorder
  import opened Lines

  /** A piece of one level in which a later position comes first shows no run. */
  lemma {:induction false} DescentShowsNoRun(c: seq<Level>, shown: seq<nat>, order: seq<nat>, lv: seq<Level>, idx: nat, v: nat)
    requires Ascending(shown) && |lv| <= |order| && idx <= v < |lv| - 1
    requires forall u :: 0 <= u < |lv| ==> !Removed(lv[u])
    requires lv[v] == lv[v + 1] == NO_ODD_LEVEL && order[v] > order[v + 1]
    ensures !AllShowRuns(c, shown, PiecesFrom(order, lv, idx))
    decreases v - idx
  {
    hide *;
    var next := idx + SpanLen(idx, lv);
    if next <= v {
      DescentShowsNoRun(c, shown, order, lv, next, v);
    } else {
      PieceReaches(lv, idx, v);
      PieceDescends(c, shown, order, lv, idx, v);
    }
    FirstOrRest(c, shown, order, lv, idx);
  }

  lemma FirstOrRest(c: seq<Level>, shown: seq<nat>, order: seq<nat>, lv: seq<Level>, idx: nat)
    requires idx < |lv| <= |order| && !Removed(lv[idx])
    ensures AllShowRuns(c, shown, PiecesFrom(order, lv, idx)) ==>
              SomeRun(c, shown, PieceAt(order, lv, idx)) && AllShowRuns(c, shown, PiecesFrom(order, lv, idx + SpanLen(idx, lv)))
  {
    hide *;
    PieceComesFirst(order, lv, idx);
    OneShowsNoRun(c, shown, PieceAt(order, lv, idx), PiecesFrom(order, lv, idx + SpanLen(idx, lv)));
  }

  lemma PieceReaches(lv: seq<Level>, idx: nat, v: nat)
    requires idx <= v < |lv| - 1 && v < idx + SpanLen(idx, lv) && lv[v] == lv[v + 1]
    ensures v + 1 < idx + SpanLen(idx, lv) && lv[idx] == lv[v]
  {
    SpanIsMaximal(idx, lv);
    hide SpanLen;
  }

  lemma OneShowsNoRun(c: seq<Level>, shown: seq<nat>, r: ReorderedRun, rest: seq<ReorderedRun>)
    ensures !SomeRun(c, shown, r) || !AllShowRuns(c, shown, rest) ==> !AllShowRuns(c, shown, [r] + rest)
  {
    var all := [r] + rest;
    hide SomeRun;
    assert all[0] == r && all[1..] == rest;
    if AllShowRuns(c, shown, all) {
      forall i | 0 <= i < |rest| ensures SomeRun(c, shown, rest[i]) {
        assert rest[i] == all[i + 1];
      }
    }
  }

  lemma PieceDescends(c: seq<Level>, shown: seq<nat>, order: seq<nat>, lv: seq<Level>, idx: nat, v: nat)
    requires Ascending(shown) && |lv| <= |order| && idx <= v < |lv| - 1 && v + 1 < idx + SpanLen(idx, lv)
    requires lv[idx] == NO_ODD_LEVEL && order[v] > order[v + 1]
    ensures !SomeRun(c, shown, PieceAt(order, lv, idx))
  {
    var r := PieceAt(order, lv, idx);
    assert r.direction == Ltr && r.indices[v - idx] == order[v] && r.indices[v + 1 - idx] == order[v + 1];
    hide *;
    forall s: nat, e: nat ensures !ShowsRun(c, shown, r, s, e) {
      DescentIsNoRun(c, shown, r, s, e, v - idx);
    }
    ShowsNone(c, shown, r);
  }

  lemma DescentIsNoRun(c: seq<Level>, shown: seq<nat>, r: ReorderedRun, s: nat, e: nat, i: nat)
    requires Ascending(shown) && r.direction == Ltr && i + 1 < |r.indices| && r.indices[i] > r.indices[i + 1]
    ensures !ShowsRun(c, shown, r, s, e)
  {
  }

  lemma ShowsNone(c: seq<Level>, shown: seq<nat>, r: ReorderedRun)
    requires forall s: nat, e: nat :: !ShowsRun(c, shown, r, s, e)
    ensures !SomeRun(c, shown, r)
  {
    hide ShowsRun;
  }

  /** On a line without odd levels the source swaps neighbours at level 126. */
  lemma NeighboursAreSwapped(c: seq<Level>, pi: seq<nat>) returns (v: nat)
    requires pi == VisualOrder(c) && !HasOdd(c) && NeighboursAt126(c)
    requires forall j :: 0 <= j < |c| ==> 0 <= c[j] <= NO_ODD_LEVEL
    ensures v + 1 < |pi| == |c| && pi[v] < |c| && pi[v + 1] < pi[v] && c[pi[v]] == c[pi[v + 1]] == NO_ODD_LEVEL
  {
    v :| v < |c| - 1 && c[v] == NO_ODD_LEVEL && c[v + 1] == NO_ODD_LEVEL;
    WithoutOdd(c);
    OnePass(c, NO_ODD_LEVEL, v);
    hide HasOdd, NeighboursAt126, Highest, LowestOdd, ReverseDown, RangeStart, RangeEnd;
    MirrorStep(c, NO_ODD_LEVEL, v);
  }

  lemma OnePass(c: seq<Level>, level: int, v: nat)
    requires v < |c| && c[v] == level >= 0 && LowestOdd(c) == level && forall j :: 0 <= j < |c| ==> c[j] <= level
    ensures VisualOrder(c) == ReverseRanges(c, level, Identity(|c|))
  {
    assert Highest(c) == level;
    hide Highest, LowestOdd, ReverseRanges;
    var id := Identity(|c|);
    assert ReverseDown(c, level - 1, level, ReverseRanges(c, level, id)) == ReverseRanges(c, level, id);
  }

  lemma SwappedLineIsNotShown(levels: seq<Level>)
    requires LineOk(levels) && !HasOdd(Kept(levels)) && NeighboursAt126(Kept(levels))
    ensures forall v :: 0 <= v < |LineOrder(levels, 0)| ==> LineOrder(levels, 0)[v] < |levels|
    ensures var order := LineOrder(levels, 0);
            var runs := PiecesFrom(order, WithLevel(LevelsAt(levels, order)), 0);
            AllIndices(runs) == order && !AllShowRuns(Kept(levels), Shown(levels, 0), runs)
  {
    var c, shown := Kept(levels), Shown(levels, 0);
    IndicesAgree(levels);
    var pi := OrderIsArranged(levels, 0);
    ShownAscends(levels, 0, |levels|);
    LevelsShown(levels, pi);
    KeptLevels(levels);
    var order := LineOrder(levels, 0);
    var lv := LevelsAt(levels, order);
    assert Ascending(shown) && |shown| == |c| == |pi| == |lv| == |order|;
    assert forall v :: 0 <= v < |lv| ==> !Removed(lv[v]) && lv[v] == c[pi[v]] && order[v] == shown[pi[v]];
    assert order[0..] == order;
    hide LineOrder, Arrange, Ascending, LevelsAt, VisualOrder, Shown, Kept, PiecesFrom, AllIndices, AllShowRuns, HasOdd, NeighboursAt126;
    var v := NeighboursAreSwapped(c, pi);
    assert order[v] > order[v + 1] by { AscendsAt(shown, pi[v + 1], pi[v]); }
    PiecesMakeOrder(order, lv, 0);
    DescentShowsNoRun(c, shown, order, lv, 0, v);
  }

  lemma AscendsAt(s: seq<nat>, i: nat, j: nat)
    requires Ascending(s) && i < j < |s|
    ensures s[i] < s[j]
  {
  }

  /** `reordered_runs` on a line that starts the paragraph: put side by side its runs are the visual
      order. Every one of them is a level run of the line, all of it, in the reading direction of its
      level, if and only if the line has an odd level or no two neighbours at level 126. */
  lemma ReorderedRunsShowLine(levels: seq<Level>)
    requires LineOk(levels)
    ensures forall v :: 0 <= v < |LineOrder(levels, 0)| ==> LineOrder(levels, 0)[v] < |levels|
    ensures var order := LineOrder(levels, 0);
            var runs := PiecesFrom(order, WithLevel(LevelsAt(levels, order)), 0);
            && AllIndices(runs) == order
            && (AllShowRuns(Kept(levels), Shown(levels, 0), runs) <==> HasOdd(Kept(levels)) || !NeighboursAt126(Kept(levels)))
  {
    hide *;
    if HasOdd(Kept(levels)) || !NeighboursAt126(Kept(levels)) {
      ConformingLineIsShown(levels);
    } else {
      SwappedLineIsNotShown(levels);
    }
  }
}
