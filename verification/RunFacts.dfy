/** Isolating run sequences partition the text: every non-removed character is in exactly one. */
module RunFacts {
  import opened BidiTypes
  import opened Runs

  ghost predicate Increasing(s: seq<nat>) {
    forall i, j :: 0 <= i < j < |s| ==> s[i] < s[j]
  }

  /** Each join of a sequence goes from a run ending in an isolate initiator to a later run of the same
      level whose first non-removed character is a PDI. */
  ghost predicate JoinsOk(text: Text, s: seq<nat>)
    requires TextOk(text)
  {
    && s != [] && Increasing(s)
    && (forall m :: 0 <= m < |s| ==> s[m] < |text.runs| && text.runs[s[m]].level == text.runs[s[0]].level)
    && (forall m :: 0 <= m < |s| - 1 ==> EndsInInitiator(text, s[m]))
    && (forall m :: 0 < m < |s| ==> StartsWithPdi(text, s[m]))
  }

  ghost predicate ChainOk(text: Text, taken: set<nat>, level: Level, idx: nat, c: seq<nat>)
    requires TextOk(text)
  {
    && Increasing(c)
    && (forall m :: 0 <= m < |c| ==>
          idx <= c[m] < |text.runs| && c[m] !in taken && text.runs[c[m]].level == level && StartsWithPdi(text, c[m]))
    && (forall m :: 0 <= m < |c| - 1 ==> EndsInInitiator(text, c[m]))
  }

  lemma {:induction false} ChainIsOk(text: Text, taken: set<nat>, level: Level, idx: nat)
    requires TextOk(text)
    ensures ChainOk(text, taken, level, idx, Chain(text, taken, level, idx))
    decreases |text.runs| - idx
  {
    hide StartsWithPdi, EndsInInitiator;
    if idx < |text.runs| {
      ChainIsOk(text, taken, level, idx + 1);
    }
  }

  lemma SequenceJoins(text: Text, taken: set<nat>, k: nat)
    requires TextOk(text) && k < |text.runs| && k !in taken
    ensures JoinsOk(text, SequenceFrom(text, taken, k))
    ensures Unassigned(SequenceFrom(text, taken, k), taken, k)
  {
    ChainIsOk(text, taken, text.runs[k].level, k + 1);
    var s := SequenceFrom(text, taken, k);
    forall i, j | 0 <= i < j < |s| ensures s[i] < s[j] {
      if i > 0 {
        assert s[i] == s[1..][i - 1] && s[j] == s[1..][j - 1];
      }
    }
  }

  ghost predicate Unassigned(s: seq<nat>, taken: set<nat>, k: nat) {
    forall x :: x in s ==> k <= x && x !in taken
  }

  ghost predicate Shared(s: seq<nat>, t: seq<nat>) {
    exists x :: x in s && x in t
  }

  ghost predicate Holds(ss: seq<seq<nat>>, x: nat) {
    exists a :: 0 <= a < |ss| && x in ss[a]
  }

  /** The sequences started from run `k` on: each well joined, together holding every unassigned run once. */
  ghost predicate Partition(text: Text, taken: set<nat>, k: nat, ss: seq<seq<nat>>)
    requires TextOk(text)
  {
    && (forall a :: 0 <= a < |ss| ==> JoinsOk(text, ss[a]))
    && (forall a :: 0 <= a < |ss| ==> Unassigned(ss[a], taken, k))
    && (forall a, b :: 0 <= a < b < |ss| ==> !Shared(ss[a], ss[b]))
    && (forall x: nat :: k <= x < |text.runs| && x !in taken ==> Holds(ss, x))
  }

  lemma {:induction false} SequencesPartition(text: Text, taken: set<nat>, k: nat)
    requires TextOk(text)
    ensures Partition(text, taken, k, Sequences(text, taken, k))
    decreases |text.runs| - k
  {
    if k < |text.runs| {
      if k in taken {
        SequencesPartition(text, taken, k + 1);
      } else {
        var s := SequenceFrom(text, taken, k);
        SequenceJoins(text, taken, k);
        SequencesPartition(text, taken + AsSet(s), k + 1);
        PartitionCons(text, taken, k, s, Sequences(text, taken + AsSet(s), k + 1));
      }
    }
  }

  lemma PartitionCons(text: Text, taken: set<nat>, k: nat, s: seq<nat>, rest: seq<seq<nat>>)
    requires TextOk(text) && k < |text.runs| && k !in taken
    requires JoinsOk(text, s) && k in s
    requires Unassigned(s, taken, k)
    requires Partition(text, taken + AsSet(s), k + 1, rest)
    ensures Partition(text, taken, k, [s] + rest)
  {
    hide JoinsOk;
    var all := [s] + rest;
    forall a | 0 <= a < |all| ensures JoinsOk(text, all[a]) && Unassigned(all[a], taken, k) {
      if a > 0 {
        assert all[a] == rest[a - 1];
        assert Unassigned(rest[a - 1], taken + AsSet(s), k + 1);
      }
    }
    forall a, b | 0 <= a < b < |all| ensures !Shared(all[a], all[b]) {
      assert all[b] == rest[b - 1];
      assert Unassigned(rest[b - 1], taken + AsSet(s), k + 1);
      if a > 0 {
        assert all[a] == rest[a - 1];
      }
    }
    forall x: nat | k <= x < |text.runs| && x !in taken ensures Holds(all, x) {
      if x in s {
        assert x in all[0];
      } else {
        assert x != k && Holds(rest, x);
        var a :| 0 <= a < |rest| && x in rest[a];
        assert all[a + 1] == rest[a];
      }
    }
  }

  lemma {:induction false} RunsOrdered(text: Text, from: nat, j: nat, k: nat)
    requires Tiled(text, from) && j < k < |text.runs|
    ensures text.runs[j].end <= text.runs[k].start
  {
    if j + 1 < k {
      RunsOrdered(text, from, j, k - 1);
    }
  }

  lemma {:induction false} RunHolding(text: Text, from: nat, p: nat, k: nat) returns (r: nat)
    requires Tiled(text, from) && k < |text.runs|
    requires text.runs[0].start <= p < text.runs[k].end
    ensures r <= k && text.runs[r].start <= p < text.runs[r].end
  {
    if p >= text.runs[k].start {
      r := k;
    } else {
      r := RunHolding(text, from, p, k - 1);
    }
  }

  lemma {:induction false} InIndices(text: Text, members: seq<nat>, p: nat)
    requires MembersInText(text, members)
    ensures p in IndicesOf(text, members) <==>
            exists m :: 0 <= m < |members| && text.runs[members[m]].start <= p < text.runs[members[m]].end
  {
    if members != [] {
      var init := members[..|members| - 1];
      var last := text.runs[members[|members| - 1]];
      InIndices(text, init, p);
      var span := Span(last.start, last.end);
      if last.start <= p < last.end {
        assert span[p - last.start] == p;
      }
      if exists m :: 0 <= m < |init| && text.runs[init[m]].start <= p < text.runs[init[m]].end {
        var m :| 0 <= m < |init| && text.runs[init[m]].start <= p < text.runs[init[m]].end;
        assert members[m] == init[m];
      }
    }
  }

  lemma IncreasingConcat(s: seq<nat>, lo: nat, hi: nat)
    requires Increasing(s) && lo <= hi
    requires forall p :: p in s ==> p < lo
    ensures Increasing(s + Span(lo, hi))
    ensures forall p :: p in s + Span(lo, hi) && lo < hi ==> p < hi
  {
    var all := s + Span(lo, hi);
    forall i, j | 0 <= i < j < |all| ensures all[i] < all[j] {
      if i < |s| {
        assert all[i] in s;
      }
    }
  }

  lemma {:induction false} IndicesIncrease(text: Text, members: seq<nat>)
    requires Tiled(text, 0) && MembersInText(text, members) && Increasing(members)
    ensures Increasing(IndicesOf(text, members))
    ensures members != [] ==> forall p :: p in IndicesOf(text, members) ==> p < text.runs[members[|members| - 1]].end
    ensures forall p :: p in IndicesOf(text, members) ==> p < |text.types|
  {
    if members != [] {
      var init := members[..|members| - 1];
      var last := text.runs[members[|members| - 1]];
      IndicesIncrease(text, init);
      forall p | p in IndicesOf(text, init) ensures p < last.start {
        RunsOrdered(text, 0, init[|init| - 1], members[|members| - 1]);
      }
      IncreasingConcat(IndicesOf(text, init), last.start, last.end);
    }
  }

  function BuildAll(text: Text, base: Level, ss: seq<seq<nat>>): seq<IsoSeq>
    requires TextOk(text)
    requires forall a :: 0 <= a < |ss| ==> ss[a] != [] && MembersInText(text, ss[a])
  {
    seq(|ss|, a requires 0 <= a < |ss| => BuildSequence(text, base, ss[a]))
  }

  /** What the rules W1-N2 rely on. */
  ghost predicate SequencesOk(seqs: seq<IsoSeq>, levels: seq<Level>) {
    && (forall a :: 0 <= a < |seqs| ==> SequenceOk(seqs[a], levels))
    && (forall a, b, p :: 0 <= a < b < |seqs| && p in seqs[a].indices ==> p !in seqs[b].indices)
  }

  ghost predicate SequenceOk(s: IsoSeq, levels: seq<Level>) {
    && Increasing(s.indices)
    && (forall m :: 0 <= m < |s.indices| ==>
          s.indices[m] < |levels| && (Removed(levels[s.indices[m]]) || levels[s.indices[m]] == s.level))
    && IsLetter(s.sos) && IsLetter(s.eos)
    && !Removed(s.level)
  }

  ghost predicate Covers(seqs: seq<IsoSeq>, levels: seq<Level>) {
    forall p: nat :: p < |levels| && !Removed(levels[p]) ==> exists a :: 0 <= a < |seqs| && p in seqs[a].indices
  }

  ghost predicate SorEorSet(runs: seq<LevelRun>) {
    forall k :: 0 <= k < |runs| ==> IsLetter(runs[k].sor) && IsLetter(runs[k].eor)
  }

  lemma SequenceIsOk(text: Text, base: Level, members: seq<nat>)
    requires Tiled(text, 0) && TextOk(text) && SorEorSet(text.runs) && JoinsOk(text, members)
    ensures MembersInText(text, members)
    ensures SequenceOk(BuildSequence(text, base, members), text.levels)
  {
    assert MembersInText(text, members);
    IndicesIncrease(text, members);
    var s := BuildSequence(text, base, members);
    forall m | 0 <= m < |s.indices|
      ensures s.indices[m] < |text.levels| && (Removed(text.levels[s.indices[m]]) || text.levels[s.indices[m]] == s.level)
    {
      InIndices(text, members, s.indices[m]);
    }
  }

  lemma JoinedAreInText(text: Text, members: seq<nat>)
    requires TextOk(text) && JoinsOk(text, members)
    ensures members != [] && MembersInText(text, members)
  {
  }

  /** Every non-removed character lies in exactly one isolating run sequence, in whose index list
      positions increase and non-removed characters have the level of the sequence. */
  lemma SequencesCoverText(text: Text, base: Level, ss: seq<seq<nat>>)
    requires Tiled(text, 0) && TextOk(text) && SorEorSet(text.runs)
    requires Partition(text, {}, 0, ss)
    ensures forall a :: 0 <= a < |ss| ==> ss[a] != [] && MembersInText(text, ss[a])
    ensures SequencesOk(BuildAll(text, base, ss), text.levels)
    ensures Covers(BuildAll(text, base, ss), text.levels)
  {
    forall a | 0 <= a < |ss| ensures ss[a] != [] && MembersInText(text, ss[a]) {
      JoinedAreInText(text, ss[a]);
    }
    hide JoinsOk, Tiled, IndicesOf, SequenceOk, SorEorSet;
    var seqs := BuildAll(text, base, ss);
    forall a | 0 <= a < |seqs| ensures SequenceOk(seqs[a], text.levels) {
      SequenceIsOk(text, base, ss[a]);
    }
    forall a, b, p | 0 <= a < b < |seqs| && p in seqs[a].indices ensures p !in seqs[b].indices {
      if p in seqs[b].indices {
        RunsApart(text, ss[a], ss[b], p);
      }
    }
    forall p: nat | p < |text.levels| && !Removed(text.levels[p])
      ensures exists a :: 0 <= a < |seqs| && p in seqs[a].indices
    {
      var a := SequenceAt(text, ss, p);
      assert p in seqs[a].indices;
    }
  }

  lemma SequenceAt(text: Text, ss: seq<seq<nat>>, p: nat) returns (a: nat)
    requires Tiled(text, 0) && TextOk(text) && p < |text.levels| && !Removed(text.levels[p])
    requires forall x: nat :: x < |text.runs| ==> Holds(ss, x)
    requires forall a :: 0 <= a < |ss| ==> MembersInText(text, ss[a])
    ensures a < |ss| && p in IndicesOf(text, ss[a])
  {
    hide Tiled, TextOk, IndicesOf;
    var r := RunAt(text, p);
    assert Holds(ss, r);
    a :| 0 <= a < |ss| && r in ss[a];
    var m :| 0 <= m < |ss[a]| && ss[a][m] == r;
    InIndices(text, ss[a], p);
  }

  lemma RunAt(text: Text, p: nat) returns (r: nat)
    requires Tiled(text, 0) && p < |text.levels| && !Removed(text.levels[p])
    ensures r < |text.runs| && text.runs[r].start <= p < text.runs[r].end
  {
    r := RunHolding(text, 0, p, |text.runs| - 1);
  }

  lemma RunsApart(text: Text, s: seq<nat>, t: seq<nat>, p: nat)
    requires Tiled(text, 0) && MembersInText(text, s) && MembersInText(text, t)
    requires p in IndicesOf(text, s) && p in IndicesOf(text, t)
    ensures Shared(s, t)
  {
    hide Tiled, IndicesOf;
    InIndices(text, s, p);
    InIndices(text, t, p);
    var m :| 0 <= m < |s| && text.runs[s[m]].start <= p < text.runs[s[m]].end;
    var n :| 0 <= n < |t| && text.runs[t[n]].start <= p < text.runs[t[n]].end;
    if s[m] < t[n] {
      RunsOrdered(text, 0, s[m], t[n]);
    } else if t[n] < s[m] {
      RunsOrdered(text, 0, t[n], s[m]);
    }
    assert s[m] in s && t[n] in t;
  }

  lemma SorEorAreSet(runs: seq<LevelRun>, base: Level)
    ensures SorEorSet(WithSorEor(runs, base))
  {
  }

  lemma SorEorKeepsTiles(types: seq<BidiClass>, levels: seq<Level>, runs: seq<LevelRun>, base: Level)
    requires Tiled(Text(types, levels, runs), 0)
    ensures Tiled(Text(types, levels, WithSorEor(runs, base)), 0)
  {
  }

  lemma {:induction false} FirstLevelOccurs(levels: seq<Level>, i: nat)
    requires i <= |levels| && !Removed(FirstLevel(levels, i))
    ensures FirstLevel(levels, i) in levels
    decreases |levels| - i
  {
    if Removed(levels[i]) {
      FirstLevelOccurs(levels, i + 1);
    }
  }

  lemma {:induction false} RunLevelsOccur(types: seq<BidiClass>, levels: seq<Level>, start: nat)
    requires start <= |types| == |levels|
    ensures forall k :: 0 <= k < |RunsFrom(types, levels, start)| ==> RunsFrom(types, levels, start)[k].level in levels
    decreases |types| - start
  {
    if start < |types| {
      SpanEndIsSpan(types, levels, start, start, NO_LEVEL);
      RunLevelsOccur(types, levels, SpanEnd(types, levels, start, NO_LEVEL));
      if !Removed(FirstLevel(levels, start)) {
        FirstLevelOccurs(levels, start);
      }
    }
  }

  /** X10 for a text of classes and levels. */
  function TextOf(types: seq<BidiClass>, levels: seq<Level>, base: Level): Text
    requires |types| == |levels|
  {
    Text(types, levels, WithSorEor(RunsFrom(types, levels, 0), base))
  }

  lemma TextOfIsTiled(types: seq<BidiClass>, levels: seq<Level>, base: Level)
    requires |types| == |levels|
    ensures Tiled(TextOf(types, levels, base), 0)
    ensures TextOk(TextOf(types, levels, base))
    ensures SorEorSet(TextOf(types, levels, base).runs)
  {
    RunsAreTiled(types, levels, 0);
    SorEorKeepsTiles(types, levels, RunsFrom(types, levels, 0), base);
    SorEorAreSet(RunsFrom(types, levels, 0), base);
  }

  ghost function SequencesOfText(types: seq<BidiClass>, levels: seq<Level>, base: Level): (seqs: seq<IsoSeq>)
    requires |types| == |levels|
    ensures SequencesOk(seqs, levels)
    ensures Covers(seqs, levels)
  {
    var text := TextOf(types, levels, base);
    TextOfIsTiled(types, levels, base);
    SequencesPartition(text, {}, 0);
    SequencesCoverText(text, base, Sequences(text, {}, 0));
    BuildAll(text, base, Sequences(text, {}, 0))
  }

  lemma SequenceLevelsOccur(types: seq<BidiClass>, levels: seq<Level>, base: Level)
    requires |types| == |levels|
    ensures forall a :: 0 <= a < |SequencesOfText(types, levels, base)| ==> SequencesOfText(types, levels, base)[a].level in levels
  {
    var text := TextOf(types, levels, base);
    TextOfIsTiled(types, levels, base);
    SequencesPartition(text, {}, 0);
    RunLevelsOccur(types, levels, 0);
    var ss := Sequences(text, {}, 0);
    assert forall k: nat :: k < |text.runs| ==> text.runs[k].level in levels;
    hide TextOf, Sequences, IndicesOf, LengthOf, EosOf, Tiled, Covers, SequencesOk, SorEorSet;
    forall a | 0 <= a < |ss| ensures ss[a] != [] && ss[a][0] < |text.runs| {
      FirstMember(text, ss[a]);
    }
  }

  lemma FirstMember(text: Text, s: seq<nat>)
    requires TextOk(text) && JoinsOk(text, s)
    ensures s != [] && s[0] < |text.runs|
  {
  }
}
