/** Rule X10: level runs and isolating run sequences, as lists of runs and as lists of indices. */
module Runs {
  import opened Options
  import opened BidiTypes

  datatype LevelRun = LevelRun(
    start: nat, end: nat, len: nat, seqId: nat, level: Level, sor: BidiClass, eor: BidiClass)

  datatype IsoSeq = IsoSeq(
    runs: seq<nat>, len: nat, level: Level, sos: BidiClass, eos: BidiClass, indices: seq<nat>)

  /** Where the run that has been scanned up to `i`, with level `cur` so far, ends. */
  function SpanEnd(types: seq<BidiClass>, levels: seq<Level>, i: nat, cur: Level): (end: nat)
    requires i <= |types| == |levels|
    ensures i <= end <= |types|
    decreases |types| - i
  {
    if i == |types| then i
    else if Removed(levels[i]) then SpanEnd(types, levels, i + 1, cur)
    else if !Removed(cur) && levels[i] != cur then i
    else if IsIsoInit(types[i]) then i + 1
    else SpanEnd(types, levels, i + 1, levels[i])
  }

  /** The level of the first character at or after `i` that is not removed. */
  function FirstLevel(levels: seq<Level>, i: nat): Level
    requires i <= |levels|
    decreases |levels| - i
  {
    if i == |levels| then NO_LEVEL
    else if Removed(levels[i]) then FirstLevel(levels, i + 1)
    else levels[i]
  }

  /** `span_one_run`. */
  method SpanOneRun(types: seq<BidiClass>, levels: seq<Level>, start: nat) returns (spanLevel: Level, len: nat)
    requires start < |types| == |levels|
    ensures spanLevel == FirstLevel(levels, start)
    ensures start + len == SpanEnd(types, levels, start, NO_LEVEL)
    ensures IsSpan(types, levels, start, start + len, spanLevel)
  {
    spanLevel := NO_LEVEL;
    var isolateInitFound := false;
    var spanLen := 0;
    ghost var done := start;
    var i := start;
    while i < |types|
      invariant start <= i <= |types| && done == i
      invariant !isolateInitFound
      invariant i == start ==> Removed(spanLevel)
      invariant i > start ==> start + spanLen == i - 1
      invariant SpanEnd(types, levels, i, spanLevel) == SpanEnd(types, levels, start, NO_LEVEL)
      invariant if Removed(spanLevel) then FirstLevel(levels, i) == FirstLevel(levels, start)
                else spanLevel == FirstLevel(levels, start)
    {
      if !Removed(levels[i]) {
        if IsIsoInit(types[i]) {
          isolateInitFound := true;
        }
        if Removed(spanLevel) {
          spanLevel := levels[i];
        } else if levels[i] != spanLevel {
          break;
        }
      }
      spanLen := i - start;
      if isolateInitFound {
        break;
      }
      i := i + 1;
      done := i;
    }
    len := spanLen + 1;
    SpanEndIsSpan(types, levels, start, start, NO_LEVEL);
  }

  /** `[start, end)` is a run of `level`: its non-removed characters have that level, an isolate
      initiator can only be its last character, and it cannot be extended. */
  ghost predicate IsSpan(types: seq<BidiClass>, levels: seq<Level>, start: nat, end: nat, level: Level) {
    && start < end <= |types| == |levels|
    && (forall i :: start <= i < end ==> Removed(levels[i]) || levels[i] == level)
    && (forall i :: start <= i < end - 1 && IsIsoInit(types[i]) ==> Removed(levels[i]))
    && (end < |types| ==>
          || (IsIsoInit(types[end - 1]) && !Removed(levels[end - 1]))
          || (!Removed(level) && !Removed(levels[end]) && levels[end] != level))
  }

  lemma {:induction false} SpanEndIsSpan(types: seq<BidiClass>, levels: seq<Level>, start: nat, i: nat, cur: Level)
    requires start <= i <= |types| == |levels| && start < |types|
    requires Removed(cur) || start < i
    requires forall j :: start <= j < i ==> Removed(levels[j]) || levels[j] == cur
    requires forall j :: start <= j < i && IsIsoInit(types[j]) ==> Removed(levels[j])
    ensures IsSpan(types, levels, start, SpanEnd(types, levels, i, cur), if Removed(cur) then FirstLevel(levels, i) else cur)
    decreases |types| - i
  {
    if i < |types| {
      if Removed(levels[i]) {
        SpanEndIsSpan(types, levels, start, i + 1, cur);
      } else if (Removed(cur) || levels[i] == cur) && !IsIsoInit(types[i]) {
        SpanEndIsSpan(types, levels, start, i + 1, levels[i]);
      }
    }
  }

  /** The runs of the text from `start` on; a tail of removed characters is in no run. */
  function RunsFrom(types: seq<BidiClass>, levels: seq<Level>, start: nat): seq<LevelRun>
    requires start <= |types| == |levels|
    decreases |types| - start
  {
    if start == |types| then []
    else
      SpanEndIsSpan(types, levels, start, start, NO_LEVEL);
      var end := SpanEnd(types, levels, start, NO_LEVEL);
      var level := FirstLevel(levels, start);
      (if Removed(level) then [] else [LevelRun(start, end, end - start, 0, level, ON, ON)])
      + RunsFrom(types, levels, end)
  }

  // The runs together with the classes and levels they were cut from.
  datatype Text = Text(types: seq<BidiClass>, levels: seq<Level>, runs: seq<LevelRun>)

  /** The runs of `text` follow each other from `from` and cover every non-removed character. */
  ghost predicate Tiled(text: Text, from: nat) {
    var n := |text.types|;
    && |text.levels| == n
    && (forall k :: 0 <= k < |text.runs| ==>
          && IsSpan(text.types, text.levels, text.runs[k].start, text.runs[k].end, text.runs[k].level)
          && text.runs[k].len == text.runs[k].end - text.runs[k].start
          && !Removed(text.runs[k].level))
    && (forall k :: 0 <= k < |text.runs| - 1 ==> text.runs[k].end == text.runs[k + 1].start)
    && (if text.runs == [] then AllRemoved(text.levels, from)
        else text.runs[0].start == from && AllRemoved(text.levels, text.runs[|text.runs| - 1].end))
  }

  ghost predicate AllRemoved(levels: seq<Level>, from: nat) {
    forall i :: from <= i < |levels| ==> Removed(levels[i])
  }

  lemma {:induction false} RunsAreTiled(types: seq<BidiClass>, levels: seq<Level>, start: nat)
    requires start <= |types| == |levels|
    ensures Tiled(Text(types, levels, RunsFrom(types, levels, start)), start)
    decreases |types| - start
  {
    if start < |types| {
      SpanEndIsSpan(types, levels, start, start, NO_LEVEL);
      var end := SpanEnd(types, levels, start, NO_LEVEL);
      var rest := RunsFrom(types, levels, end);
      RunsAreTiled(types, levels, end);
      var level := FirstLevel(levels, start);
      if !Removed(level) {
        var all := RunsFrom(types, levels, start);
        assert all[0].start == start && all[0].end == end;
        forall k | 0 <= k < |all| - 1 ensures all[k].end == all[k + 1].start {
          if k > 0 {
            assert all[k] == rest[k - 1] && all[k + 1] == rest[k];
          } else {
            assert all[1] == rest[0];
          }
        }
      } else {
        assert end == |types|;
      }
    }
  }

  function PriorLevel(runs: seq<LevelRun>, base: Level, k: nat): Level
    requires k < |runs|
  {
    if k == 0 then base else runs[k - 1].level
  }

  function FollowingLevel(runs: seq<LevelRun>, base: Level, k: nat): Level
    requires k < |runs|
  {
    if k == |runs| - 1 then base else runs[k + 1].level
  }

  /** X10: sor and eor come from the higher of the levels on either side of the boundary. */
  function SorEor(runs: seq<LevelRun>, base: Level, k: nat): LevelRun
    requires k < |runs|
  {
    runs[k].(sor := LevelClass(MaxLevel(PriorLevel(runs, base, k), runs[k].level)),
             eor := LevelClass(MaxLevel(FollowingLevel(runs, base, k), runs[k].level)))
  }

  function WithSorEor(runs: seq<LevelRun>, base: Level): seq<LevelRun> {
    seq(|runs|, k requires 0 <= k < |runs| => SorEor(runs, base, k))
  }

  predicate RunInText(text: Text, k: nat) {
    && |text.levels| == |text.types|
    && k < |text.runs| && text.runs[k].start < text.runs[k].end <= |text.types|
  }

  predicate TextOk(text: Text) {
    |text.levels| == |text.types| && forall k :: 0 <= k < |text.runs| ==> RunInText(text, k)
  }

  function FirstSignificant(types: seq<BidiClass>, levels: seq<Level>, i: nat, end: nat): Option<BidiClass>
    requires i <= end <= |types| == |levels|
    decreases end - i
  {
    if i == end then None
    else if Removed(levels[i]) then FirstSignificant(types, levels, i + 1, end)
    else Some(types[i])
  }

  /** `Run::first_significant_bidi_class`. */
  method FirstSignificantBidiClass(run: LevelRun, types: seq<BidiClass>, levels: seq<Level>) returns (r: Option<BidiClass>)
    requires run.start <= run.end <= |types| == |levels|
    ensures r == FirstSignificant(types, levels, run.start, run.end)
    ensures r.Some? ==> exists i :: run.start <= i < run.end && !Removed(levels[i]) && r.value == types[i]
                                 && forall j :: run.start <= j < i ==> Removed(levels[j])
    ensures r.None? ==> forall j :: run.start <= j < run.end ==> Removed(levels[j])
  {
    for i := run.start to run.end
      invariant FirstSignificant(types, levels, run.start, run.end) == FirstSignificant(types, levels, i, run.end)
      invariant forall j :: run.start <= j < i ==> Removed(levels[j])
    {
      if !Removed(levels[i]) {
        return Some(types[i]);
      }
    }
    return None;
  }

  predicate EndsInInitiator(text: Text, k: nat)
    requires RunInText(text, k)
  {
    IsIsoInit(text.types[text.runs[k].end - 1])
  }

  predicate StartsWithPdi(text: Text, k: nat)
    requires RunInText(text, k)
  {
    FirstSignificant(text.types, text.levels, text.runs[k].start, text.runs[k].end) == Some(PDI)
  }

  /** The runs appended to a sequence of level `level` that looks for its next run from `idx` on. */
  function Chain(text: Text, taken: set<nat>, level: Level, idx: nat): seq<nat>
    requires TextOk(text)
    decreases |text.runs| - idx
  {
    if idx >= |text.runs| then []
    else if idx !in taken && text.runs[idx].level == level && StartsWithPdi(text, idx) then
      [idx] + (if EndsInInitiator(text, idx) then Chain(text, taken, level, idx + 1) else [])
    else Chain(text, taken, level, idx + 1)
  }

  function SequenceFrom(text: Text, taken: set<nat>, k: nat): seq<nat>
    requires TextOk(text) && k < |text.runs|
  {
    [k] + (if EndsInInitiator(text, k) then Chain(text, taken, text.runs[k].level, k + 1) else [])
  }

  function AsSet(s: seq<nat>): set<nat> {
    set x | x in s
  }

  /** The sequences started by the runs from `k` on that are not yet assigned. */
  function Sequences(text: Text, taken: set<nat>, k: nat): seq<seq<nat>>
    requires TextOk(text)
    decreases |text.runs| - k
  {
    if k >= |text.runs| then []
    else if k in taken then Sequences(text, taken, k + 1)
    else
      var s := SequenceFrom(text, taken, k);
      [s] + Sequences(text, taken + AsSet(s), k + 1)
  }

  function Span(lo: nat, hi: nat): seq<nat>
    requires lo <= hi
  {
    seq(hi - lo, i requires 0 <= i < hi - lo => lo + i)
  }

  predicate MembersInText(text: Text, members: seq<nat>) {
    forall m :: 0 <= m < |members| ==> RunInText(text, members[m])
  }

  function IndicesOf(text: Text, members: seq<nat>): seq<nat>
    requires MembersInText(text, members)
  {
    if members == [] then []
    else
      var last := text.runs[members[|members| - 1]];
      IndicesOf(text, members[..|members| - 1]) + Span(last.start, last.end)
  }

  function LengthOf(text: Text, members: seq<nat>): nat
    requires MembersInText(text, members)
  {
    if members == [] then 0
    else LengthOf(text, members[..|members| - 1]) + text.runs[members[|members| - 1]].len
  }

  // A sequence that ends in an initiator without a following run takes its eos from the base level.
  function EosOf(text: Text, base: Level, level: Level, last: nat): BidiClass
    requires RunInText(text, last)
  {
    if EndsInInitiator(text, last) then LevelClass(MaxLevel(base, level)) else text.runs[last].eor
  }

  function BuildSequence(text: Text, base: Level, members: seq<nat>): IsoSeq
    requires members != [] && MembersInText(text, members)
  {
    var level := text.runs[members[0]].level;
    IsoSeq(members, LengthOf(text, members), level,
           text.runs[members[0]].sor, EosOf(text, base, level, members[|members| - 1]),
           IndicesOf(text, members))
  }
}
