/** BD11: which PDF matches an embedding initiator, and which initiators are open at a position. */
module Embeddings {
  import opened BidiTypes
  import opened Isolates
  import opened IsolateLevels

  // ----- BD11, on the text alone -----

  /** Position `k` lies in an isolate that was opened after `i` (BD9). */
  ghost predicate InLaterIsolate(t: seq<BidiClass>, i: nat, k: nat) {
    exists o: nat :: i < o < k && OpenAt(t, o, k)
  }

  ghost function EmbeddingWeight(t: seq<BidiClass>, i: nat, k: nat): int
    requires k < |t|
  {
    if InLaterIsolate(t, i, k) then 0 else if IsEmbedding(t[k]) then 1 else if t[k] == PDF then -1 else 0
  }

  /** Embedding initiators minus PDFs between `i` and `k`, isolates skipped. */
  ghost function EmbeddingDepth(t: seq<BidiClass>, i: nat, k: nat): int
    requires k <= |t|
    decreases k
  {
    if k <= i + 1 then 0 else EmbeddingDepth(t, i, k - 1) + EmbeddingWeight(t, i, k - 1)
  }

  /** The PDI at `k` matches an isolate initiator before `i`. */
  ghost predicate LeavesIsolate(t: seq<BidiClass>, i: nat, k: nat) {
    exists o: nat :: o < i && Matches(t, o, k)
  }

  ghost predicate CountsOut(t: seq<BidiClass>, i: nat, k: nat)
    requires k < |t|
  {
    t[k] == PDF && !InLaterIsolate(t, i, k) && EmbeddingDepth(t, i, k) == 0
  }

  /** BD11: the embedding initiator at `i` has met neither its matching PDF nor the end of the isolate it is
      in before position `k`. */
  ghost predicate EmbeddingOpenAt(t: seq<BidiClass>, i: nat, k: nat) {
    && i < k <= |t|
    && IsEmbedding(t[i])
    && forall j: nat :: i < j < k ==> !CountsOut(t, i, j) && !LeavesIsolate(t, i, j)
  }

  /** BD11: the PDF at `j` is the matching PDF of the embedding initiator at `i`. */
  ghost predicate MatchingPdf(t: seq<BidiClass>, i: nat, j: nat) {
    j < |t| && EmbeddingOpenAt(t, i, j) && CountsOut(t, i, j)
  }

  lemma EmbeddingOpenStep(t: seq<BidiClass>, i: nat, k: nat)
    requires i < k < |t|
    ensures EmbeddingOpenAt(t, i, k + 1) <==> EmbeddingOpenAt(t, i, k) && !CountsOut(t, i, k) && !LeavesIsolate(t, i, k)
  {
    hide CountsOut, LeavesIsolate;
  }

  /** The initiator at `i`, of an isolate or an embedding, is open at `k`. */
  ghost predicate IsOpen(t: seq<BidiClass>, i: nat, k: nat) {
    OpenAt(t, i, k) || EmbeddingOpenAt(t, i, k)
  }

  // ----- the list of open initiators -----

  predicate IsInitiator(bc: BidiClass) {
    IsEmbedding(bc) || IsIsoInit(bc)
  }

  predicate Listed(t: seq<BidiClass>, k: nat, open: seq<nat>) {
    forall m :: 0 <= m < |open| ==> open[m] < k <= |t| && IsInitiator(t[open[m]])
  }

  lemma IsListed(t: seq<BidiClass>, k: nat, open: seq<nat>, m: nat)
    requires Listed(t, k, open) && m < |open|
    ensures open[m] < k <= |t|
  {
  }

  /** The index of the last isolate initiator in the list, or -1. */
  function LastIsolate(t: seq<BidiClass>, k: nat, open: seq<nat>): (p: int)
    requires Listed(t, k, open)
    ensures -1 <= p < |open|
    ensures p >= 0 ==> IsIsoInit(t[open[p]])
  {
    if open == [] then -1
    else if IsIsoInit(t[open[|open| - 1]]) then |open| - 1
    else LastIsolate(t, k, open[..|open| - 1])
  }

  lemma {:induction false} NoIsolateAfter(t: seq<BidiClass>, k: nat, open: seq<nat>, m: nat)
    requires Listed(t, k, open) && LastIsolate(t, k, open) < m < |open|
    ensures !IsIsoInit(t[open[m]])
    decreases |open|
  {
    if m < |open| - 1 {
      NoIsolateAfter(t, k, open[..|open| - 1], m);
    }
  }

  function Reached(t: seq<BidiClass>, k: nat, open: seq<nat>): (next: seq<nat>)
    requires k < |t| && Listed(t, k, open)
    ensures Listed(t, k + 1, next)
  {
    if IsInitiator(t[k]) then open + [k]
    else if t[k] == PDI then
      var p := LastIsolate(t, k, open);
      if p < 0 then open else open[..p]
    else if t[k] == PDF && open != [] && IsEmbedding(t[open[|open| - 1]]) then open[..|open| - 1]
    else open
  }

  /** The initiators that are open at `k`, in order. */
  function OpenInitiators(t: seq<BidiClass>, k: nat): (open: seq<nat>)
    requires k <= |t|
    ensures Listed(t, k, open)
  {
    if k == 0 then [] else Reached(t, k - 1, OpenInitiators(t, k - 1))
  }

  /** The isolate initiators from index `m` of the list on. */
  function IsolatesFrom(t: seq<BidiClass>, open: seq<nat>, m: nat): nat
    requires forall n :: 0 <= n < |open| ==> open[n] < |t|
    decreases |open| - m
  {
    if m >= |open| then 0 else (if IsIsoInit(t[open[m]]) then 1 else 0) + IsolatesFrom(t, open, m + 1)
  }

  /** The embedding initiators from index `m` on, up to the next isolate initiator. */
  function EmbeddingsFrom(t: seq<BidiClass>, open: seq<nat>, m: nat): nat
    requires forall n :: 0 <= n < |open| ==> open[n] < |t|
    decreases |open| - m
  {
    if m >= |open| || IsIsoInit(t[open[m]]) then 0 else 1 + EmbeddingsFrom(t, open, m + 1)
  }

  lemma {:induction false} CountsGrow(t: seq<BidiClass>, k: nat, open: seq<nat>, m: nat)
    requires Listed(t, k, open) && k < |t| && IsInitiator(t[k]) && m <= |open|
    ensures IsolatesFrom(t, open + [k], m) == IsolatesFrom(t, open, m) + (if IsIsoInit(t[k]) then 1 else 0)
    ensures EmbeddingsFrom(t, open + [k], m)
            == EmbeddingsFrom(t, open, m) + (if IsolatesFrom(t, open, m) == 0 && IsEmbedding(t[k]) then 1 else 0)
    decreases |open| - m
  {
    if m < |open| {
      CountsGrow(t, k, open, m + 1);
    }
  }

  /** Cutting the list at an isolate initiator, the last one. */
  lemma {:induction false} CountsCut(t: seq<BidiClass>, k: nat, open: seq<nat>, m: nat)
    requires Listed(t, k, open) && LastIsolate(t, k, open) >= m
    ensures IsolatesFrom(t, open, m) == IsolatesFrom(t, open[..LastIsolate(t, k, open)], m) + 1
    ensures EmbeddingsFrom(t, open, m) == EmbeddingsFrom(t, open[..LastIsolate(t, k, open)], m)
    decreases |open| - m
  {
    var p := LastIsolate(t, k, open);
    if m < p {
      CountsCut(t, k, open, m + 1);
    } else {
      NoneFrom(t, k, open, p + 1);
    }
  }

  lemma {:induction false} NoneFrom(t: seq<BidiClass>, k: nat, open: seq<nat>, m: nat)
    requires Listed(t, k, open) && m <= |open|
    ensures LastIsolate(t, k, open) < m <==> IsolatesFrom(t, open, m) == 0
    ensures IsolatesFrom(t, open, m) == 0 ==> EmbeddingsFrom(t, open, m) == |open| - m
    decreases |open| - m
  {
    if m < |open| {
      NoneFrom(t, k, open, m + 1);
      if LastIsolate(t, k, open) < m {
        NoIsolateAfter(t, k, open, m);
      }
      hide LastIsolate;
    }
  }

  /** Dropping an embedding initiator at the end of the list. */
  lemma {:induction false} CountsDrop(t: seq<BidiClass>, k: nat, open: seq<nat>, m: nat)
    requires Listed(t, k, open) && open != [] && IsEmbedding(t[open[|open| - 1]]) && m < |open|
    ensures IsolatesFrom(t, open[..|open| - 1], m) == IsolatesFrom(t, open, m)
    ensures EmbeddingsFrom(t, open[..|open| - 1], m)
            == EmbeddingsFrom(t, open, m) - (if IsolatesFrom(t, open, m) == 0 then 1 else 0)
    decreases |open| - m
  {
    if m < |open| - 1 {
      CountsDrop(t, k, open, m + 1);
    }
  }

  // ----- the list holds what BD9 and BD11 leave open -----

  /** The initiator at index `m` is open, and its counter stands at the initiators after it. */
  ghost predicate MemberOk(t: seq<BidiClass>, k: nat, open: seq<nat>, m: nat)
    requires k <= |t| && Listed(t, k, open) && m < |open|
  {
    if IsIsoInit(t[open[m]])
    then OpenAt(t, open[m], k) && Depth(t, open[m] + 1, k) == IsolatesFrom(t, open, m + 1)
    else EmbeddingOpenAt(t, open[m], k) && EmbeddingDepth(t, open[m], k) == EmbeddingsFrom(t, open, m + 1)
  }

  ghost predicate ListOk(t: seq<BidiClass>, k: nat, open: seq<nat>) {
    && k <= |t| && Listed(t, k, open)
    && (forall m, n :: 0 <= m < n < |open| ==> open[m] < open[n])
    && (forall m: nat :: m < |open| ==> MemberOk(t, k, open, m))
    && (forall i: nat :: IsOpen(t, i, k) ==> i in open)
  }

  lemma IndexOf(t: seq<BidiClass>, k: nat, open: seq<nat>, i: nat) returns (m: nat)
    requires ListOk(t, k, open) && IsOpen(t, i, k)
    ensures m < |open| && open[m] == i
  {
    assert i in open;
    m :| m < |open| && open[m] == i;
  }

  lemma OpenIsolateListed(t: seq<BidiClass>, k: nat, open: seq<nat>, o: nat) returns (m: nat)
    requires ListOk(t, k, open) && OpenAt(t, o, k)
    ensures Listed(t, k, open) && m < |open| && open[m] == o && m <= LastIsolate(t, k, open)
  {
    assert Listed(t, k, open) && IsIsoInit(t[o]);
    hide ListOk, OpenAt;
    assert IsOpen(t, o, k);
    m := IndexOf(t, k, open, o);
    if m > LastIsolate(t, k, open) {
      NoIsolateAfter(t, k, open, m);
    }
  }

  lemma InListOrder(t: seq<BidiClass>, k: nat, open: seq<nat>, m: nat, n: nat)
    requires ListOk(t, k, open) && m < |open| && n < |open|
    ensures open[m] < open[n] <==> m < n
  {
    hide MemberOk, IsOpen;
  }

  lemma LastIsolateIsOpen(t: seq<BidiClass>, k: nat, open: seq<nat>)
    requires ListOk(t, k, open) && Listed(t, k, open) && LastIsolate(t, k, open) >= 0
    ensures var o := open[LastIsolate(t, k, open)];
            OpenAt(t, o, k) && (k < |t| && t[k] == PDI ==> Matches(t, o, k))
  {
    var p := LastIsolate(t, k, open);
    NoneFrom(t, k, open, p + 1);
    assert MemberOk(t, k, open, p);
    hide Depth, OpenAt, IsolatesFrom;
  }

  lemma InsideIff(t: seq<BidiClass>, k: nat, open: seq<nat>, m: nat)
    requires ListOk(t, k, open) && Listed(t, k, open) && m < |open|
    ensures InLaterIsolate(t, open[m], k) <==> IsolatesFrom(t, open, m + 1) > 0
  {
    NoneFrom(t, k, open, m + 1);
    hide ListOk, OpenAt, IsolatesFrom, LastIsolate, Listed;
    if InLaterIsolate(t, open[m], k) {
      var o: nat :| open[m] < o < k && OpenAt(t, o, k);
      var n := OpenIsolateListed(t, k, open, o);
      InListOrder(t, k, open, m, n);
    }
    if IsolatesFrom(t, open, m + 1) > 0 {
      LastIsolateIsOpen(t, k, open);
      InListOrder(t, k, open, m, LastIsolate(t, k, open));
      OpenIsLater(t, open[LastIsolate(t, k, open)], k);
    }
  }

  lemma OpenIsLater(t: seq<BidiClass>, o: nat, k: nat)
    requires OpenAt(t, o, k)
    ensures o < k <= |t| && IsIsoInit(t[o])
  {
  }

  /** A PDI leaves the isolate of the last isolate initiator in the list, and no other. */
  lemma LeavesIff(t: seq<BidiClass>, k: nat, open: seq<nat>, m: nat)
    requires ListOk(t, k, open) && Listed(t, k, open) && m < |open| && k < |t| && t[k] == PDI
    ensures LeavesIsolate(t, open[m], k) <==> 0 <= LastIsolate(t, k, open) < m
  {
    var p := LastIsolate(t, k, open);
    hide ListOk, OpenAt, Depth, LastIsolate, Listed, LeavesIsolate;
    if p >= 0 {
      LastIsolateIsOpen(t, k, open);
      InListOrder(t, k, open, p, m);
      OnlyLeaves(t, open[m], k, open[p]);
    } else if LeavesIsolate(t, open[m], k) {
      var o := LeftIsolate(t, open[m], k);
      var n := OpenIsolateListed(t, k, open, o);
    }
  }

  lemma OnlyLeaves(t: seq<BidiClass>, i: nat, k: nat, o: nat)
    requires Matches(t, o, k)
    ensures LeavesIsolate(t, i, k) <==> o < i
  {
    hide Matches;
    if x: nat :| x < i && Matches(t, x, k) {
      MatchIsOneToOne(t, x, o, k);
    }
  }

  lemma LeftIsolate(t: seq<BidiClass>, i: nat, k: nat) returns (o: nat)
    requires LeavesIsolate(t, i, k)
    ensures o < i && OpenAt(t, o, k) && k < |t| && t[k] == PDI
  {
    o :| o < i && Matches(t, o, k);
    hide OpenAt, Depth;
  }

  lemma LeavesAtPdi(t: seq<BidiClass>, i: nat, k: nat)
    requires k < |t| && t[k] != PDI
    ensures !LeavesIsolate(t, i, k)
  {
    hide OpenAt, Depth;
  }

  /** What the character at `k` does to the counts after a member that stays in the list. */
  ghost predicate CountsMove(t: seq<BidiClass>, k: nat, open: seq<nat>, next: seq<nat>, m: nat)
    requires k < |t| && Listed(t, k, open) && Listed(t, k + 1, next)
  {
    var isolates := IsolatesFrom(t, open, m + 1);
    && m < |open| && m < |next| && next[m] == open[m]
    && IsolatesFrom(t, next, m + 1)
       == isolates + (if IsIsoInit(t[k]) then 1 else if t[k] == PDI && isolates > 0 then -1 else 0)
    && EmbeddingsFrom(t, next, m + 1)
       == EmbeddingsFrom(t, open, m + 1)
          + (if isolates > 0 then 0 else if IsEmbedding(t[k]) then 1 else if t[k] == PDF && m + 1 < |open| then -1 else 0)
  }

  lemma InitiatorMoves(t: seq<BidiClass>, k: nat, open: seq<nat>, m: nat)
    requires Listed(t, k, open) && k < |t| && m < |open| && IsInitiator(t[k])
    ensures CountsMove(t, k, open, Reached(t, k, open), m)
  {
    assert Reached(t, k, open) == open + [k];
    CountsGrow(t, k, open, m + 1);
    hide IsolatesFrom, EmbeddingsFrom, Reached;
  }

  lemma PdiMovesCounts(t: seq<BidiClass>, k: nat, open: seq<nat>, m: nat)
    requires Listed(t, k, open) && k < |t| && m < |open| && m < |Reached(t, k, open)| && t[k] == PDI
    ensures CountsMove(t, k, open, Reached(t, k, open), m)
  {
    PdiReaches(t, k, open);
    hide *;
    if LastIsolate(t, k, open) < 0 {
      NoneFrom(t, k, open, m + 1);
      CountsKept(t, k, open, m);
    } else {
      CountsAfterCut(t, k, open, m);
    }
  }

  lemma PdiReaches(t: seq<BidiClass>, k: nat, open: seq<nat>)
    requires Listed(t, k, open) && k < |t| && t[k] == PDI
    ensures Reached(t, k, open) == if LastIsolate(t, k, open) < 0 then open else open[..LastIsolate(t, k, open)]
  {
    hide LastIsolate;
  }

  lemma CountsKept(t: seq<BidiClass>, k: nat, open: seq<nat>, m: nat)
    requires Listed(t, k, open) && k < |t| && m < |open|
    requires (t[k] == PDI && IsolatesFrom(t, open, m + 1) == 0)
             || (t[k] == PDF && (m + 1 == |open| || IsolatesFrom(t, open, m + 1) > 0))
    ensures CountsMove(t, k, open, open, m)
  {
    hide IsolatesFrom, EmbeddingsFrom;
  }

  lemma CountsAfterCut(t: seq<BidiClass>, k: nat, open: seq<nat>, m: nat)
    requires Listed(t, k, open) && k < |t| && t[k] == PDI && m < LastIsolate(t, k, open)
    ensures Listed(t, k + 1, open[..LastIsolate(t, k, open)])
    ensures CountsMove(t, k, open, open[..LastIsolate(t, k, open)], m)
  {
    CountsCut(t, k, open, m + 1);
    hide IsolatesFrom, EmbeddingsFrom, LastIsolate;
  }

  lemma LastCounts(t: seq<BidiClass>, k: nat, open: seq<nat>, m: nat)
    requires Listed(t, k, open) && m < |open| && !IsEmbedding(t[open[|open| - 1]])
    ensures IsolatesFrom(t, open, m) > 0
  {
    NoneFrom(t, k, open, m);
  }

  lemma PdfReaches(t: seq<BidiClass>, k: nat, open: seq<nat>)
    requires Listed(t, k, open) && k < |t| && t[k] == PDF && open != []
    ensures Reached(t, k, open) == if IsEmbedding(t[open[|open| - 1]]) then open[..|open| - 1] else open
  {
    hide LastIsolate;
  }

  lemma CountsAfterDrop(t: seq<BidiClass>, k: nat, open: seq<nat>, m: nat)
    requires Listed(t, k, open) && k < |t| && t[k] == PDF && m + 1 < |open| && IsEmbedding(t[open[|open| - 1]])
    ensures Listed(t, k + 1, open[..|open| - 1])
    ensures CountsMove(t, k, open, open[..|open| - 1], m)
  {
    CountsDrop(t, k, open, m + 1);
    hide IsolatesFrom, EmbeddingsFrom;
  }

  lemma PdfMovesCounts(t: seq<BidiClass>, k: nat, open: seq<nat>, m: nat)
    requires Listed(t, k, open) && k < |t| && m < |open| && m < |Reached(t, k, open)| && t[k] == PDF
    ensures CountsMove(t, k, open, Reached(t, k, open), m)
  {
    PdfReaches(t, k, open);
    hide *;
    IsListed(t, k, open, |open| - 1);
    if IsEmbedding(t[open[|open| - 1]]) {
      CountsAfterDrop(t, k, open, m);
    } else {
      if m + 1 < |open| {
        LastCounts(t, k, open, m + 1);
      }
      CountsKept(t, k, open, m);
    }
  }

  lemma ReachedCounts(t: seq<BidiClass>, k: nat, open: seq<nat>, m: nat)
    requires Listed(t, k, open) && k < |t| && m < |open| && m < |Reached(t, k, open)|
    ensures CountsMove(t, k, open, Reached(t, k, open), m)
  {
    if IsInitiator(t[k]) {
      hide *;
      InitiatorMoves(t, k, open, m);
    } else if t[k] == PDI {
      hide *;
      PdiMovesCounts(t, k, open, m);
    } else if t[k] == PDF {
      hide *;
      PdfMovesCounts(t, k, open, m);
    } else {
      assert Reached(t, k, open) == open;
    }
  }

  /** An isolate initiator that stays in the list. */
  lemma KeptIsolate(t: seq<BidiClass>, k: nat, open: seq<nat>, m: nat)
    requires ListOk(t, k, open) && Listed(t, k, open) && k < |t| && m < |open| && m < |Reached(t, k, open)|
    requires IsIsoInit(t[open[m]])
    ensures MemberOk(t, k + 1, Reached(t, k, open), m)
  {
    var i, next := open[m], Reached(t, k, open);
    assert MemberOk(t, k, open, m);
    if t[k] == PDI {
      PdiCuts(t, k, open, m);
    }
    hide *;
    IsListed(t, k, open, m);
    ReachedCounts(t, k, open, m);
    IsolateMoves(t, k, open, next, m);
  }

  lemma IsolateMoves(t: seq<BidiClass>, k: nat, open: seq<nat>, next: seq<nat>, m: nat)
    requires k < |t| && Listed(t, k, open) && Listed(t, k + 1, next) && m < |open| && m < |next| && open[m] < k
    requires MemberOk(t, k, open, m) && IsIsoInit(t[open[m]]) && CountsMove(t, k, open, next, m)
    requires t[k] == PDI ==> IsolatesFrom(t, open, m + 1) > 0
    ensures MemberOk(t, k + 1, next, m)
  {
    var i := open[m];
    assert Depth(t, i + 1, k + 1) == Depth(t, i + 1, k) + Weight(t[k]);
    hide OpenAt, IsolatesFrom, EmbeddingsFrom, Depth;
    OpenAtStep(t, i, k);
  }

  lemma PdiCuts(t: seq<BidiClass>, k: nat, open: seq<nat>, m: nat)
    requires Listed(t, k, open) && k < |t| && m < |open| && m < |Reached(t, k, open)| && t[k] == PDI
    ensures IsIsoInit(t[open[m]]) ==> IsolatesFrom(t, open, m + 1) > 0
    ensures LastIsolate(t, k, open) < 0 || LastIsolate(t, k, open) > m
  {
    var p := LastIsolate(t, k, open);
    assert Reached(t, k, open) == if p < 0 then open else open[..p];
    hide IsolatesFrom, EmbeddingsFrom, Reached, LastIsolate;
    if p < 0 {
      NoIsolateAfter(t, k, open, m);
    } else {
      NoneFrom(t, k, open, m + 1);
    }
  }

  lemma PdfDrops(t: seq<BidiClass>, k: nat, open: seq<nat>, m: nat)
    requires Listed(t, k, open) && k < |t| && m < |open| && m < |Reached(t, k, open)| && t[k] == PDF && !IsIsoInit(t[open[m]])
    ensures m + 1 < |open|
  {
  }

  lemma StaysOpen(t: seq<BidiClass>, k: nat, open: seq<nat>, m: nat)
    requires ListOk(t, k, open) && Listed(t, k, open) && k < |t| && m < |open| && m < |Reached(t, k, open)|
    requires !IsIsoInit(t[open[m]])
    ensures !CountsOut(t, open[m], k) && !LeavesIsolate(t, open[m], k)
    ensures t[k] == PDF ==> m + 1 < |open|
  {
    assert MemberOk(t, k, open, m);
    InsideIff(t, k, open, m);
    NoneFrom(t, k, open, m + 1);
    if t[k] == PDI {
      PdiCuts(t, k, open, m);
      LeavesIff(t, k, open, m);
    } else {
      LeavesAtPdi(t, open[m], k);
    }
    if t[k] == PDF {
      PdfDrops(t, k, open, m);
    }
    hide ListOk, EmbeddingOpenAt, IsolatesFrom, EmbeddingsFrom, EmbeddingDepth, InLaterIsolate, LeavesIsolate, Reached, LastIsolate;
  }

  /** An embedding initiator that stays in the list. */
  lemma KeptEmbedding(t: seq<BidiClass>, k: nat, open: seq<nat>, m: nat)
    requires ListOk(t, k, open) && Listed(t, k, open) && k < |t| && m < |open| && m < |Reached(t, k, open)|
    requires !IsIsoInit(t[open[m]])
    ensures MemberOk(t, k + 1, Reached(t, k, open), m)
  {
    var i, next := open[m], Reached(t, k, open);
    assert MemberOk(t, k, open, m) && i < k;
    assert EmbeddingDepth(t, i, k + 1) == EmbeddingDepth(t, i, k) + EmbeddingWeight(t, i, k);
    InsideIff(t, k, open, m);
    NoneFrom(t, k, open, m + 1);
    StaysOpen(t, k, open, m);
    hide ListOk, OpenAt, IsOpen, IsolatesFrom, EmbeddingsFrom, Reached, Depth, LastIsolate, EmbeddingDepth, InLaterIsolate,
         EmbeddingOpenAt, CountsOut, LeavesIsolate;
    ReachedCounts(t, k, open, m);
    EmbeddingOpenStep(t, i, k);
  }

  lemma NewMember(t: seq<BidiClass>, k: nat, open: seq<nat>)
    requires Listed(t, k, open) && k < |t| && IsInitiator(t[k])
    ensures MemberOk(t, k + 1, open + [k], |open|)
  {
    assert (open + [k])[|open|] == k;
    hide LeavesIsolate, CountsOut;
  }

  /** What is open after `k` is in the list. */
  lemma OpenIsReached(t: seq<BidiClass>, k: nat, open: seq<nat>, i: nat)
    requires ListOk(t, k, open) && Listed(t, k, open) && k < |t| && IsOpen(t, i, k + 1)
    ensures i in Reached(t, k, open)
  {
    var next := Reached(t, k, open);
    if i == k {
      NowOpen(t, k);
      assert next[|open|] == k;
    } else {
      StillOpen(t, i, k);
      var m := IndexOf(t, k, open, i);
      hide ListOk, IsOpen;
      if m < |next| {
        StaysAtIndex(t, k, open, m);
      } else {
        DroppedIsClosed(t, k, open, m);
      }
    }
  }

  lemma StaysAtIndex(t: seq<BidiClass>, k: nat, open: seq<nat>, m: nat)
    requires Listed(t, k, open) && k < |t| && m < |open| && m < |Reached(t, k, open)|
    ensures Reached(t, k, open)[m] == open[m]
  {
    hide LastIsolate;
  }

  lemma NowOpen(t: seq<BidiClass>, k: nat)
    requires k < |t| && IsOpen(t, k, k + 1)
    ensures IsInitiator(t[k])
  {
  }

  lemma StillOpen(t: seq<BidiClass>, i: nat, k: nat)
    requires k < |t| && IsOpen(t, i, k + 1) && i != k
    ensures i < k && IsOpen(t, i, k)
  {
    hide Depth, CountsOut, LeavesIsolate;
  }

  /** A member that is dropped from the list has been closed. */
  lemma DroppedIsClosed(t: seq<BidiClass>, k: nat, open: seq<nat>, m: nat)
    requires ListOk(t, k, open) && Listed(t, k, open) && k < |t| && |Reached(t, k, open)| <= m < |open|
    ensures !IsOpen(t, open[m], k + 1)
  {
    var i := open[m];
    assert MemberOk(t, k, open, m) && i < k;
    if t[k] == PDI {
      DroppedByPdi(t, k, open, m);
    } else {
      DroppedByPdf(t, k, open, m);
    }
  }

  lemma NotBoth(t: seq<BidiClass>, i: nat, k: nat)
    ensures OpenAt(t, i, k) ==> i < k <= |t| && IsIsoInit(t[i])
    ensures EmbeddingOpenAt(t, i, k) ==> i < k <= |t| && IsEmbedding(t[i])
  {
  }

  lemma DroppedByPdi(t: seq<BidiClass>, k: nat, open: seq<nat>, m: nat)
    requires ListOk(t, k, open) && Listed(t, k, open) && k < |t| && |Reached(t, k, open)| <= m < |open| && t[k] == PDI
    ensures !IsOpen(t, open[m], k + 1)
  {
    var i, p := open[m], LastIsolate(t, k, open);
    PdiReaches(t, k, open);
    hide *;
    IsListed(t, k, open, m);
    NotBoth(t, i, k + 1);
    LastIsolateIsOpen(t, k, open);
    if m > p {
      NoIsolateAfter(t, k, open, m);
      LeavesIff(t, k, open, m);
      LeftIsClosed(t, i, k);
    } else {
      MatchedIsClosed(t, open[p], k);
    }
  }

  lemma LeftIsClosed(t: seq<BidiClass>, i: nat, k: nat)
    requires i < k < |t| && LeavesIsolate(t, i, k) && !IsIsoInit(t[i])
    ensures !IsOpen(t, i, k + 1)
  {
    hide Depth, CountsOut, LeavesIsolate;
  }

  lemma MatchedIsClosed(t: seq<BidiClass>, o: nat, k: nat)
    requires Matches(t, o, k)
    ensures !IsOpen(t, o, k + 1)
  {
    hide Depth, CountsOut, LeavesIsolate;
  }

  lemma DroppedIsLast(t: seq<BidiClass>, k: nat, open: seq<nat>, m: nat)
    requires Listed(t, k, open) && k < |t| && |Reached(t, k, open)| <= m < |open| && t[k] != PDI
    ensures t[k] == PDF && m == |open| - 1 && IsEmbedding(t[open[m]])
  {
    hide LastIsolate;
  }

  lemma LastIsOk(t: seq<BidiClass>, k: nat, open: seq<nat>)
    requires ListOk(t, k, open) && open != []
    ensures var i := open[|open| - 1]; IsEmbedding(t[i]) ==> EmbeddingOpenAt(t, i, k) && EmbeddingDepth(t, i, k) == 0
    ensures IsolatesFrom(t, open, |open|) == 0
  {
    var m := |open| - 1;
    assert MemberOk(t, k, open, m);
    hide EmbeddingOpenAt, EmbeddingDepth;
  }

  lemma DroppedByPdf(t: seq<BidiClass>, k: nat, open: seq<nat>, m: nat)
    requires ListOk(t, k, open) && Listed(t, k, open) && k < |t| && |Reached(t, k, open)| <= m < |open| && t[k] != PDI
    ensures !IsOpen(t, open[m], k + 1)
  {
    var i := open[m];
    DroppedIsLast(t, k, open, m);
    LastIsOk(t, k, open);
    InsideIff(t, k, open, m);
    IsListed(t, k, open, m);
    NotBoth(t, i, k + 1);
    hide ListOk, Listed, Reached, OpenAt, EmbeddingOpenAt, InLaterIsolate, EmbeddingDepth, IsolatesFrom, LeavesIsolate;
    EmbeddingOpenStep(t, i, k);
  }

  lemma ReachedOk(t: seq<BidiClass>, k: nat, open: seq<nat>)
    requires ListOk(t, k, open) && Listed(t, k, open) && k < |t|
    ensures ListOk(t, k + 1, Reached(t, k, open))
  {
    var next := Reached(t, k, open);
    InOrder(t, k, open);
    hide ListOk, Reached, MemberOk, IsOpen, LastIsolate;
    var after := k + 1;
    forall m: nat | m < |next| ensures MemberOk(t, after, next, m) {
      ReachedMember(t, k, open, m);
    }
    forall i: nat | IsOpen(t, i, k + 1) ensures i in next {
      OpenIsReached(t, k, open, i);
    }
    AllOk(t, k + 1, next);
  }

  lemma AllOk(t: seq<BidiClass>, k: nat, open: seq<nat>)
    requires k <= |t| && Listed(t, k, open)
    requires forall m, n :: 0 <= m < n < |open| ==> open[m] < open[n]
    requires forall m: nat :: m < |open| ==> MemberOk(t, k, open, m)
    requires forall i: nat :: IsOpen(t, i, k) ==> i in open
    ensures ListOk(t, k, open)
  {
    hide MemberOk, IsOpen;
  }

  lemma InOrder(t: seq<BidiClass>, k: nat, open: seq<nat>)
    requires ListOk(t, k, open) && Listed(t, k, open) && k < |t|
    ensures var next := Reached(t, k, open); forall m, n :: 0 <= m < n < |next| ==> next[m] < next[n]
  {
    hide MemberOk, IsOpen, LastIsolate;
  }

  lemma ReachedMember(t: seq<BidiClass>, k: nat, open: seq<nat>, m: nat)
    requires ListOk(t, k, open) && Listed(t, k, open) && k < |t| && m < |Reached(t, k, open)|
    ensures MemberOk(t, k + 1, Reached(t, k, open), m)
  {
    if m < |open| {
      hide *;
      if IsIsoInit(t[open[m]]) {
        KeptIsolate(t, k, open, m);
      } else {
        KeptEmbedding(t, k, open, m);
      }
    } else {
      assert IsInitiator(t[k]) && Reached(t, k, open) == open + [k] && m == |open|;
      hide *;
      NewMember(t, k, open);
    }
  }

  /** The list holds exactly the isolate initiators that BD9 leaves open and the embedding initiators that
      BD11 leaves open, and its counts are theirs. */
  lemma {:induction false} OpenInitiatorsOk(t: seq<BidiClass>, k: nat)
    requires k <= |t|
    ensures ListOk(t, k, OpenInitiators(t, k))
  {
    if k == 0 {
      NothingOpen(t);
    } else {
      hide *;
      OpenInitiatorsOk(t, k - 1);
      ReachedOk(t, k - 1, OpenInitiators(t, k - 1));
      OneMore(t, k - 1);
    }
  }

  lemma NothingOpen(t: seq<BidiClass>)
    ensures ListOk(t, 0, OpenInitiators(t, 0))
  {
  }

  lemma OneMore(t: seq<BidiClass>, k: nat)
    requires k < |t|
    ensures OpenInitiators(t, k + 1) == Reached(t, k, OpenInitiators(t, k))
  {
    hide Reached;
  }

  // ----- what closes an initiator -----

  lemma ComesFrom(t: seq<BidiClass>, k: nat, open: seq<nat>, i: nat)
    requires Listed(t, k, open) && k < |t| && i in Reached(t, k, open)
    ensures i == k || i in open
    ensures i == k ==> IsInitiator(t[k])
    ensures open + [k] == Reached(t, k, open) || Reached(t, k, open) <= open
  {
    hide LastIsolate;
  }

  lemma InOrderAt(t: seq<BidiClass>, k: nat, m: nat, n: nat)
    requires k <= |t| && m < |OpenInitiators(t, k)| && n < |OpenInitiators(t, k)|
    ensures OpenInitiators(t, k)[m] == OpenInitiators(t, k)[n] ==> m == n
  {
    OpenInitiatorsOk(t, k);
    hide OpenInitiators, MemberOk, IsOpen, Listed;
  }

  ghost predicate Under(t: seq<BidiClass>, i: nat, k: nat)
    requires i <= |t| && k <= |t|
  {
    OpenInitiators(t, i) + [i] <= OpenInitiators(t, k)
  }

  lemma UnderStep(t: seq<BidiClass>, i: nat, k: nat)
    requires i <= k < |t| && i in OpenInitiators(t, k + 1)
    requires i < k && i in OpenInitiators(t, k) ==> Under(t, i, k)
    ensures Under(t, i, k + 1)
  {
    OneMore(t, k);
    hide OpenInitiators, Reached;
    ComesFrom(t, k, OpenInitiators(t, k), i);
    if i == k {
      NoneLater(t, i);
    } else {
      IndexStays(t, k, OpenInitiators(t, i), i);
    }
  }

  /** What was open at an initiator is open as long as the initiator is. */
  lemma {:induction false} PrefixStays(t: seq<BidiClass>, i: nat, k: nat)
    requires i < k <= |t| && i in OpenInitiators(t, k)
    ensures Under(t, i, k)
    decreases k
  {
    hide *;
    if i < k - 1 && i in OpenInitiators(t, k - 1) {
      PrefixStays(t, i, k - 1);
    }
    UnderStep(t, i, k - 1);
  }

  lemma NoneLater(t: seq<BidiClass>, i: nat)
    requires i < |t| && i in Reached(t, i, OpenInitiators(t, i))
    ensures Reached(t, i, OpenInitiators(t, i)) == OpenInitiators(t, i) + [i]
  {
    hide LastIsolate;
  }

  lemma IndexStays(t: seq<BidiClass>, k: nat, before: seq<nat>, i: nat)
    requires k < |t| && before + [i] <= OpenInitiators(t, k) && i in Reached(t, k, OpenInitiators(t, k)) && i < k
    ensures before + [i] <= Reached(t, k, OpenInitiators(t, k))
  {
    var now, next := OpenInitiators(t, k), Reached(t, k, OpenInitiators(t, k));
    ComesFrom(t, k, now, i);
    hide OpenInitiators, Reached;
    if next <= now {
      var m: nat :| m < |next| && next[m] == i;
      assert now[m] == i && now[|before|] == i;
      InOrderAt(t, k, m, |before|);
    }
  }

  /** A matching PDF closes the embedding that was opened last, and nothing else. */
  lemma MatchingPdfEnds(t: seq<BidiClass>, i: nat, j: nat)
    requires MatchingPdf(t, i, j)
    ensures i < j < |t| && OpenInitiators(t, j) == OpenInitiators(t, i) + [i]
    ensures OpenInitiators(t, j + 1) == OpenInitiators(t, i)
  {
    var open := OpenInitiators(t, j);
    assert EmbeddingOpenAt(t, i, j) && i < j < |t| && IsEmbedding(t[i]) && t[j] == PDF;
    assert !InLaterIsolate(t, i, j) && EmbeddingDepth(t, i, j) == 0;
    OpenInitiatorsOk(t, j);
    hide OpenInitiators, ListOk, OpenAt, EmbeddingOpenAt, MatchingPdf, EmbeddingDepth, InLaterIsolate, Reached;
    assert IsOpen(t, i, j);
    var m := IndexOf(t, j, open, i);
    InsideIff(t, j, open, m);
    CountedOut(t, j, open, m);
    PrefixStays(t, i, j);
    assert OpenInitiators(t, i) + [i] <= open;
    InOrderAt(t, j, m, |OpenInitiators(t, i)|);
    OneMore(t, j);
    PdfReaches(t, j, open);
  }

  lemma CountedOut(t: seq<BidiClass>, k: nat, open: seq<nat>, m: nat)
    requires ListOk(t, k, open) && Listed(t, k, open) && m < |open| && IsEmbedding(t[open[m]])
    requires IsolatesFrom(t, open, m + 1) == 0 && EmbeddingDepth(t, open[m], k) == 0
    ensures m == |open| - 1
  {
    assert MemberOk(t, k, open, m);
    NoneFrom(t, k, open, m + 1);
    hide IsolatesFrom, EmbeddingsFrom, EmbeddingDepth, OpenAt, EmbeddingOpenAt, LastIsolate;
  }

  lemma LastIsMatched(t: seq<BidiClass>, j: nat, open: seq<nat>)
    requires ListOk(t, j, open) && Listed(t, j, open) && j < |t| && t[j] == PDF && open != [] && IsEmbedding(t[open[|open| - 1]])
    ensures MatchingPdf(t, open[|open| - 1], j)
  {
    var m := |open| - 1;
    assert MemberOk(t, j, open, m);
    assert IsolatesFrom(t, open, m + 1) == 0 && EmbeddingsFrom(t, open, m + 1) == 0;
    InsideIff(t, j, open, m);
    hide IsolatesFrom, EmbeddingsFrom, EmbeddingDepth, OpenAt, EmbeddingOpenAt, LastIsolate, InLaterIsolate;
  }

  /** A PDF that matches nothing closes nothing. */
  lemma LonePdf(t: seq<BidiClass>, j: nat)
    requires j < |t| && t[j] == PDF && forall i: nat :: !MatchingPdf(t, i, j)
    ensures OpenInitiators(t, j + 1) == OpenInitiators(t, j)
  {
    var open := OpenInitiators(t, j);
    OpenInitiatorsOk(t, j);
    hide *;
    OneMore(t, j);
    if open != [] {
      PdfReaches(t, j, open);
      IsListed(t, j, open, |open| - 1);
      if IsEmbedding(t[open[|open| - 1]]) {
        LastIsMatched(t, j, open);
      }
    } else {
      NothingToClose(t, j);
    }
  }

  lemma NothingToClose(t: seq<BidiClass>, k: nat)
    requires k < |t| && t[k] == PDF
    ensures Reached(t, k, []) == []
  {
  }

  /** A matching PDI closes its isolate and the embeddings in it, and nothing else. */
  lemma MatchingPdiEnds(t: seq<BidiClass>, i: nat, j: nat)
    requires Matches(t, i, j)
    ensures i < j < |t| && OpenInitiators(t, i) + [i] <= OpenInitiators(t, j)
    ensures OpenInitiators(t, j + 1) == OpenInitiators(t, i)
    ensures LastIsolate(t, j, OpenInitiators(t, j)) == |OpenInitiators(t, i)|
  {
    var open := OpenInitiators(t, j);
    assert OpenAt(t, i, j) && i < j < |t| && t[j] == PDI;
    OpenInitiatorsOk(t, j);
    hide *;
    var m := OpenIsolateListed(t, j, open, i);
    LastIsolateIsOpen(t, j, open);
    var p := LastIsolate(t, j, open);
    MatchIsOneToOne(t, i, open[p], j);
    InListed(t, j, p);
    PrefixStays(t, i, j);
    IsUnder(t, i, j);
    InOrderAt(t, j, p, |OpenInitiators(t, i)|);
    OneMore(t, j);
    PdiReaches(t, j, open);
  }

  lemma IsUnder(t: seq<BidiClass>, i: nat, k: nat)
    requires i <= |t| && k <= |t| && Under(t, i, k)
    ensures OpenInitiators(t, i) + [i] <= OpenInitiators(t, k)
  {
    hide OpenInitiators;
  }

  lemma InListed(t: seq<BidiClass>, k: nat, m: nat)
    requires k <= |t| && m < |OpenInitiators(t, k)|
    ensures OpenInitiators(t, k)[m] in OpenInitiators(t, k) && OpenInitiators(t, k)[m] < k
  {
    hide OpenInitiators;
  }

  /** A PDI that matches nothing closes nothing. */
  lemma LonePdi(t: seq<BidiClass>, j: nat)
    requires j < |t| && t[j] == PDI && forall i: nat :: !Matches(t, i, j)
    ensures OpenInitiators(t, j + 1) == OpenInitiators(t, j)
    ensures LastIsolate(t, j, OpenInitiators(t, j)) < 0
  {
    var open := OpenInitiators(t, j);
    OpenInitiatorsOk(t, j);
    hide *;
    OneMore(t, j);
    PdiReaches(t, j, open);
    if LastIsolate(t, j, open) >= 0 {
      LastIsolateIsOpen(t, j, open);
    }
  }
}
