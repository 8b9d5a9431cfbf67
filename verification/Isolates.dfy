/** Paragraph level: `paragraph_level` against rules P2 and P3, with isolates matched as in BD9. */
module Isolates {
  import opened BidiTypes

  function Weight(bc: BidiClass): int {
    if IsIsoInit(bc) then 1 else if bc == PDI then -1 else 0
  }

  /** Isolate initiators minus PDIs in `t[lo..hi]`. */
  function Depth(t: seq<BidiClass>, lo: nat, hi: nat): int
    requires hi <= |t|
  {
    if hi <= lo then 0 else Depth(t, lo, hi - 1) + Weight(t[hi - 1])
  }

  /** BD9: the initiator at `i` has not met its matching PDI before position `k`. */
  ghost predicate OpenAt(t: seq<BidiClass>, i: nat, k: nat)
  {
    && i < k <= |t|
    && IsIsoInit(t[i])
    && forall j: nat :: i < j < k ==> !(t[j] == PDI && Depth(t, i + 1, j) == 0)
  }

  /** BD9: the PDI at `j` is the matching PDI of the initiator at `i`. */
  ghost predicate Matches(t: seq<BidiClass>, i: nat, j: nat) {
    j < |t| && OpenAt(t, i, j) && t[j] == PDI && Depth(t, i + 1, j) == 0
  }

  /** P2: a strong character at or after `from` that is in no isolate opened at or after `from`. */
  ghost predicate Candidate(t: seq<BidiClass>, from: nat, k: nat) {
    && from <= k < |t|
    && IsStrong(t[k])
    && forall i: nat :: from <= i < k ==> !OpenAt(t, i, k)
  }

  function StrongLevel(bc: BidiClass): Level {
    if bc == L then 0 else 1
  }

  function FallbackLevel(fallback: Direction): Level {
    if fallback == Ltr then 0 else 1
  }

  ghost predicate NoCandidateBefore(t: seq<BidiClass>, from: nat, k: nat) {
    forall e: nat :: e < k ==> !Candidate(t, from, e)
  }

  /** P2 and P3 on `t[from..limit]`: the level of the first candidate, or the fallback. */
  ghost predicate FirstStrongLevel(t: seq<BidiClass>, from: nat, limit: nat, fallback: Direction, level: Level) {
    && (forall k: nat :: k < limit && Candidate(t, from, k) && NoCandidateBefore(t, from, k) ==> level == StrongLevel(t[k]))
    && (NoCandidateBefore(t, from, limit) ==> level == FallbackLevel(fallback))
  }

  /** What the counting scan returns from position `k` on, with `count` isolates open. */
  function ScanLevel(t: seq<BidiClass>, k: nat, count: nat, respectPdi: bool, fallback: Direction): Level
    decreases |t| - k
  {
    if k >= |t| then FallbackLevel(fallback)
    else if IsIsoInit(t[k]) then ScanLevel(t, k + 1, count + 1, respectPdi, fallback)
    else if t[k] == PDI then
      if count > 0 then ScanLevel(t, k + 1, count - 1, respectPdi, fallback)
      else if respectPdi then FallbackLevel(fallback)
      else ScanLevel(t, k + 1, 0, respectPdi, fallback)
    else if IsStrong(t[k]) && count == 0 then StrongLevel(t[k])
    else ScanLevel(t, k + 1, count, respectPdi, fallback)
  }

  /** `paragraph_level`. */
  method ParagraphLevel(types: seq<BidiClass>, respectPdi: bool, fallback: Direction) returns (level: Level)
    ensures level == ScanLevel(types, 0, 0, respectPdi, fallback)
    ensures !respectPdi ==> FirstStrongLevel(types, 0, |types|, fallback, level)
  {
    if !respectPdi {
      ScanIsP2P3(types, 0, 0, [], fallback);
    }
    var isolateCount := 0;
    for k := 0 to |types|
      invariant isolateCount >= 0
      invariant ScanLevel(types, k, isolateCount, respectPdi, fallback) == ScanLevel(types, 0, 0, respectPdi, fallback)
    {
      match types[k] {
        case RLI | LRI | FSI => isolateCount := isolateCount + 1;
        case PDI =>
          if isolateCount > 0 {
            isolateCount := isolateCount - 1;
          } else if respectPdi {
            break;
          }
        case L =>
          if isolateCount == 0 { return 0; }
        case R | AL =>
          if isolateCount == 0 { return 1; }
        case _ =>
      }
    }
    return if fallback == Ltr then 0 else 1;
  }

  /** `open` lists the initiators at or after `from` that are still open at `k`, and the counter
      of BD9 for the m-th of them stands at the number of initiators opened after it. */
  ghost predicate OpenList(t: seq<BidiClass>, from: nat, k: nat, open: seq<nat>) {
    && from <= k <= |t|
    && (forall m :: 0 <= m < |open| ==>
          from <= open[m] < k && OpenAt(t, open[m], k) && Depth(t, open[m] + 1, k) == |open| - 1 - m)
    && (forall i: nat :: from <= i < k && OpenAt(t, i, k) ==> i in open)
  }

  function NextOpen(bc: BidiClass, k: nat, open: seq<nat>): seq<nat> {
    if IsIsoInit(bc) then open + [k]
    else if bc == PDI && open != [] then open[..|open| - 1]
    else open
  }

  lemma OpenAtStep(t: seq<BidiClass>, i: nat, k: nat)
    requires i < k < |t|
    ensures OpenAt(t, i, k + 1) <==> OpenAt(t, i, k) && !(t[k] == PDI && Depth(t, i + 1, k) == 0)
  {
  }

  lemma OpenListStep(t: seq<BidiClass>, from: nat, k: nat, open: seq<nat>)
    requires OpenList(t, from, k, open) && k < |t|
    ensures OpenList(t, from, k + 1, NextOpen(t[k], k, open))
  {
    var next := NextOpen(t[k], k, open);
    forall m | 0 <= m < |next|
      ensures from <= next[m] < k + 1 && OpenAt(t, next[m], k + 1) && Depth(t, next[m] + 1, k + 1) == |next| - 1 - m
    {
      if m < |open| {
        OpenAtStep(t, open[m], k);
      }
    }
    forall i: nat | from <= i < k + 1 && OpenAt(t, i, k + 1)
      ensures i in next
    {
      if i < k {
        OpenAtStep(t, i, k);
      }
    }
  }

  lemma FirstStrongHere(t: seq<BidiClass>, from: nat, k: nat, limit: nat, fallback: Direction)
    requires NoCandidateBefore(t, from, k) && Candidate(t, from, k) && k < limit
    ensures FirstStrongLevel(t, from, limit, fallback, StrongLevel(t[k]))
  {
    forall e: nat | e < limit && Candidate(t, from, e) && NoCandidateBefore(t, from, e)
      ensures e == k
    {
    }
  }

  lemma NoCandidateStep(t: seq<BidiClass>, from: nat, k: nat)
    requires NoCandidateBefore(t, from, k) && !Candidate(t, from, k)
    ensures NoCandidateBefore(t, from, k + 1)
  {
    forall e: nat | e < k + 1 ensures !Candidate(t, from, e) {
      if e < k {
      } else {
        assert e == k;
      }
    }
  }

  /** The counter is the number of open isolates, so a strong character is met at count zero
      exactly when it is a candidate of P2. */
  lemma {:induction false} ScanIsP2P3(t: seq<BidiClass>, from: nat, k: nat, open: seq<nat>, fallback: Direction)
    requires OpenList(t, from, k, open)
    requires NoCandidateBefore(t, from, k)
    ensures FirstStrongLevel(t, from, |t|, fallback, ScanLevel(t, k, |open|, false, fallback))
    decreases |t| - k
  {
    hide Candidate, OpenAt, Depth, Matches;
    if k < |t| {
      CandidateWhenNoneOpen(t, from, k, open);
      if IsStrong(t[k]) && open == [] {
        FirstStrongHere(t, from, k, |t|, fallback);
      } else {
        OpenListStep(t, from, k, open);
        NoCandidateStep(t, from, k);
        ScanIsP2P3(t, from, k + 1, NextOpen(t[k], k, open), fallback);
      }
    }
  }

  lemma CandidateWhenNoneOpen(t: seq<BidiClass>, from: nat, k: nat, open: seq<nat>)
    requires OpenList(t, from, k, open) && k < |t|
    ensures Candidate(t, from, k) <==> IsStrong(t[k]) && open == []
  {
    if open != [] {
      assert OpenAt(t, open[0], k);
    }
  }

  /** X5c: the level picked for an FSI at `f` is that of P2 and P3 applied to the text between the
      FSI and its matching PDI (or the end of the text when it has none). */
  lemma FsiLevelStopsAtMatchingPdi(t: seq<BidiClass>, f: nat) returns (limit: nat)
    requires f < |t| && IsIsoInit(t[f])
    ensures Matches(t, f, limit) || (limit == |t| && forall j: nat :: !Matches(t, f, j))
    ensures FirstStrongLevel(t, f + 1, limit, Ltr, ScanLevel(t, f + 1, 0, true, Ltr))
  {
    limit := FsiScan(t, f, f + 1, []);
  }

  lemma {:induction false} FsiScan(t: seq<BidiClass>, f: nat, k: nat, open: seq<nat>) returns (limit: nat)
    requires f < k <= |t| && IsIsoInit(t[f])
    requires OpenList(t, f + 1, k, open)
    requires OpenAt(t, f, k) && Depth(t, f + 1, k) == |open|
    requires NoCandidateBefore(t, f + 1, k)
    ensures Matches(t, f, limit) || (limit == |t| && forall j: nat :: !Matches(t, f, j))
    ensures FirstStrongLevel(t, f + 1, limit, Ltr, ScanLevel(t, k, |open|, true, Ltr))
    decreases |t| - k
  {
    hide Candidate, OpenAt, OpenList;
    if k == |t| {
      NoMatchWhenOpenAtEnd(t, f);
      limit := |t|;
    } else if t[k] == PDI && open == [] {
      limit := k;
    } else {
      CandidateWhenNoneOpen(t, f + 1, k, open);
      if IsStrong(t[k]) && open == [] {
        OpenAtStep(t, f, k);
        limit := CloseFrom(t, f, k + 1);
        FirstStrongHere(t, f + 1, k, limit, Ltr);
      } else {
        NoCandidateStep(t, f + 1, k);
        OpenAtStep(t, f, k);
        OpenListStep(t, f + 1, k, open);
        limit := FsiScan(t, f, k + 1, NextOpen(t[k], k, open));
      }
    }
  }

  lemma NoMatchWhenOpenAtEnd(t: seq<BidiClass>, f: nat)
    requires OpenAt(t, f, |t|)
    ensures forall j: nat :: !Matches(t, f, j)
  {
  }

  /** An initiator still open at `k` is closed at or after `k`, or never. */
  lemma {:induction false} CloseFrom(t: seq<BidiClass>, f: nat, k: nat) returns (limit: nat)
    requires OpenAt(t, f, k)
    ensures k <= limit
    ensures Matches(t, f, limit) || (limit == |t| && forall j: nat :: !Matches(t, f, j))
    decreases |t| - k
  {
    if k == |t| {
      NoMatchWhenOpenAtEnd(t, f);
      limit := |t|;
    } else if t[k] == PDI && Depth(t, f + 1, k) == 0 {
      limit := k;
    } else {
      OpenAtStep(t, f, k);
      limit := CloseFrom(t, f, k + 1);
    }
  }

  /** A scan of a suffix is the scan of the whole text from that position. */
  lemma {:induction false} ScanSuffix(t: seq<BidiClass>, from: nat, k: nat, count: nat, respectPdi: bool, fallback: Direction)
    requires from + k <= |t|
    ensures ScanLevel(t[from..], k, count, respectPdi, fallback) == ScanLevel(t, from + k, count, respectPdi, fallback)
    decreases |t| - k
  {
    if from + k < |t| {
      var next := if IsIsoInit(t[from + k]) then count + 1
                  else if t[from + k] == PDI && count > 0 then count - 1 else count;
      ScanSuffix(t, from, k + 1, next, respectPdi, fallback);
    }
  }
}
