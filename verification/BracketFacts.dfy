/** What the bracket stack finds (BD16, section 3.1.3 of UAX #9), said without a stack, and what N0 makes
    of the pairs. */
module BracketFacts {
  import opened BidiTypes
  import opened Chains
  import opened Brackets

  /** An opening bracket before `k` that no pair closed before `k` has used up or enclosed. */
  ghost predicate Available(c: Ctx, cls: seq<BidiClass>, pairs: set<Pair>, o: nat, k: nat)
    requires k <= |cls| == |c.chars|
  {
    && o < k && IsOpener(c, cls, o)
    && forall p :: p in pairs && p.closing < k ==> !(p.opening <= o < p.closing)
  }

  predicate Closes(c: Ctx, cls: seq<BidiClass>, o: nat, k: nat)
    requires o < |cls| == |c.chars| && k < |cls| && IsOpener(c, cls, o)
  {
    SameBracket(c.chars[o].bracket.value.paired, c.chars[k].ch)
  }

  /** The closing bracket `p.closing` is paired with the nearest available opening bracket it closes. */
  ghost predicate PairsUp(c: Ctx, cls: seq<BidiClass>, pairs: set<Pair>, p: Pair)
    requires |cls| == |c.chars|
  {
    && p.closing < |cls| && IsCloser(c, cls, p.closing)
    && Available(c, cls, pairs, p.opening, p.closing) && Closes(c, cls, p.opening, p.closing)
    && forall o: nat :: o > p.opening && Available(c, cls, pairs, o, p.closing) ==> !Closes(c, cls, o, p.closing)
  }

  /** `pairs` are the bracket pairs among the first `n` characters. */
  ghost predicate IsBD16(c: Ctx, cls: seq<BidiClass>, pairs: set<Pair>, n: nat)
    requires n <= |cls| == |c.chars|
  {
    forall p :: p in pairs <==> p.closing < n && PairsUp(c, cls, pairs, p)
  }

  /** There is only one such set. */
  lemma {:induction false} BD16IsUnique(c: Ctx, cls: seq<BidiClass>, s: set<Pair>, t: set<Pair>, n: nat, k: nat)
    requires n <= |cls| == |c.chars| && k <= n
    requires IsBD16(c, cls, s, n) && IsBD16(c, cls, t, n)
    ensures forall p: Pair :: p.closing < k ==> (p in s <==> p in t)
  {
    if k > 0 {
      BD16IsUnique(c, cls, s, t, n, k - 1);
      var last := k - 1;
      assert forall o: nat :: Available(c, cls, s, o, last) <==> Available(c, cls, t, o, last);
      forall p: Pair | p.closing == k - 1 ensures p in s <==> p in t {
        assert PairsUp(c, cls, s, p) <==> PairsUp(c, cls, t, p);
      }
    }
  }

  /** Two bracket pairs share no position, and one encloses the other or they are apart. */
  lemma PairsNestOrAreDisjoint(c: Ctx, cls: seq<BidiClass>, pairs: set<Pair>, n: nat, p: Pair, q: Pair)
    requires n <= |cls| == |c.chars| && IsBD16(c, cls, pairs, n)
    requires p in pairs && q in pairs && p != q
    ensures p.opening != q.opening && p.closing != q.closing && p.opening != q.closing && p.closing != q.opening
    ensures || p.closing < q.opening || q.closing < p.opening
            || (p.opening < q.opening && q.closing < p.closing)
            || (q.opening < p.opening && p.closing < q.closing)
  {
    assert PairsUp(c, cls, pairs, p) && PairsUp(c, cls, pairs, q);
    assert p.closing < q.closing ==> Available(c, cls, pairs, q.opening, q.closing);
    assert q.closing < p.closing ==> Available(c, cls, pairs, p.opening, p.closing);
  }

  ghost function Found(pairs: seq<Pair>): set<Pair> {
    set p | p in pairs
  }

  /** The stack holds the available opening brackets in order. */
  ghost predicate StackIsAvailable(c: Ctx, cls: seq<BidiClass>, s: PairState, k: nat)
    requires k <= |cls| == |c.chars|
  {
    && (forall i :: 0 <= i < |s.open| ==> StackEntryOk(c, cls, s, i, k))
    && (forall i, j :: 0 <= i < j < |s.open| ==> s.open[i].pos < s.open[j].pos)
    && (forall o: nat :: Available(c, cls, Found(s.pairs), o, k) ==> OnStack(s.open, o))
  }

  ghost predicate StackEntryOk(c: Ctx, cls: seq<BidiClass>, s: PairState, i: nat, k: nat)
    requires k <= |cls| == |c.chars| && i < |s.open|
  {
    && Available(c, cls, Found(s.pairs), s.open[i].pos, k)
    && s.open[i].closer == c.chars[s.open[i].pos].bracket.value.paired
  }

  ghost predicate OnStack(open: seq<Opener>, o: nat) {
    exists i :: 0 <= i < |open| && open[i].pos == o
  }

  ghost predicate ScanOk(c: Ctx, cls: seq<BidiClass>, s: PairState, k: nat)
    requires k <= |cls| == |c.chars|
  {
    && IsBD16(c, cls, Found(s.pairs), k)
    && StackIsAvailable(c, cls, s, k)
  }

  ghost predicate ClosedBefore(pairs: set<Pair>, k: nat) {
    forall p :: p in pairs ==> p.closing < k
  }

  lemma StillAvailable(c: Ctx, cls: seq<BidiClass>, pairs: set<Pair>, o: nat, k: nat)
    requires k < |cls| == |c.chars| && ClosedBefore(pairs, k)
    ensures Available(c, cls, pairs, o, k + 1) <==> Available(c, cls, pairs, o, k) || (o == k && IsOpener(c, cls, k))
  {
  }

  /** A new pair takes its opening bracket and all later ones. */
  lemma UsedUp(c: Ctx, cls: seq<BidiClass>, pairs: set<Pair>, op: nat, o: nat, k: nat)
    requires k < |cls| == |c.chars| && ClosedBefore(pairs, k) && IsCloser(c, cls, k) && op < k
    ensures Available(c, cls, pairs + {Pair(op, k)}, o, k + 1) <==> Available(c, cls, pairs, o, k) && o < op
    ensures Available(c, cls, pairs + {Pair(op, k)}, o, k) <==> Available(c, cls, pairs, o, k)
  {
    var next := pairs + {Pair(op, k)};
    assert Pair(op, k) in next;
    if Available(c, cls, next, o, k + 1) {
      assert forall p :: p in pairs ==> p in next;
    }
  }

  /** Pairs closed before `k` do not depend on what is closed at `k`. */
  lemma EarlierPairs(c: Ctx, cls: seq<BidiClass>, pairs: set<Pair>, next: set<Pair>, k: nat, p: Pair)
    requires k < |cls| == |c.chars| && p.closing <= k
    requires forall q: Pair :: q.closing < k ==> (q in pairs <==> q in next)
    ensures PairsUp(c, cls, pairs, p) <==> PairsUp(c, cls, next, p)
  {
    assert forall o: nat :: Available(c, cls, pairs, o, p.closing) <==> Available(c, cls, next, o, p.closing);
  }

  lemma BD16Step(c: Ctx, cls: seq<BidiClass>, pairs: set<Pair>, next: set<Pair>, k: nat)
    requires k < |cls| == |c.chars| && IsBD16(c, cls, pairs, k)
    requires forall q: Pair :: q.closing < k ==> (q in pairs <==> q in next)
    requires forall p :: p in next ==> p.closing <= k
    requires forall p: Pair :: p.closing == k ==> (p in next <==> PairsUp(c, cls, pairs, p))
    ensures IsBD16(c, cls, next, k + 1)
  {
    hide PairsUp;
    forall p: Pair ensures p in next <==> p.closing < k + 1 && PairsUp(c, cls, next, p) {
      if p.closing <= k {
        EarlierPairs(c, cls, pairs, next, k, p);
      }
    }
  }

  /** An opening bracket goes on the stack; a character that is no bracket changes nothing. */
  lemma NoCloserStep(c: Ctx, cls: seq<BidiClass>, s: PairState, open: seq<Opener>, k: nat)
    requires k < |cls| == |c.chars| && ScanOk(c, cls, s, k) && !IsCloser(c, cls, k)
    requires open == if IsOpener(c, cls, k) then s.open + [Opener(c.chars[k].bracket.value.paired, k)] else s.open
    ensures ScanOk(c, cls, PairState(open, s.pairs), k + 1)
  {
    var pairs, t, next := Found(s.pairs), PairState(open, s.pairs), k + 1;
    BD16Step(c, cls, pairs, pairs, k);
    hide IsBD16;
    assert ClosedBefore(pairs, k) by { assert IsBD16(c, cls, pairs, k); }
    forall o: nat ensures Available(c, cls, pairs, o, next) <==> Available(c, cls, pairs, o, k) || (o == k && IsOpener(c, cls, k)) {
      StillAvailable(c, cls, pairs, o, k);
    }
    forall i | 0 <= i < |s.open| ensures s.open[i].pos < k {
      assert StackEntryOk(c, cls, s, i, k);
    }
    hide Available;
    forall i | 0 <= i < |open| ensures StackEntryOk(c, cls, t, i, next) {
      assert i < |s.open| ==> StackEntryOk(c, cls, s, i, k);
    }
    forall o: nat | Available(c, cls, pairs, o, next) ensures OnStack(open, o) {
      if o < k {
        assert OnStack(s.open, o);
        var i :| 0 <= i < |s.open| && s.open[i].pos == o;
        assert open[i].pos == o;
      } else {
        assert open[|s.open|].pos == o;
      }
    }
    assert StackIsAvailable(c, cls, t, next);
  }

  lemma SeekFindsNearest(c: Ctx, cls: seq<BidiClass>, s: PairState, k: nat)
    requires k < |cls| == |c.chars| && StackIsAvailable(c, cls, s, k)
    ensures var d := Seek(s.open, c.chars[k].ch, |s.open|);
            forall o: nat :: Available(c, cls, Found(s.pairs), o, k) && (d < 0 || o > s.open[d].pos) ==> !Closes(c, cls, o, k)
  {
    var d := Seek(s.open, c.chars[k].ch, |s.open|);
    forall o: nat | Available(c, cls, Found(s.pairs), o, k) && (d < 0 || o > s.open[d].pos) ensures !Closes(c, cls, o, k) {
      assert OnStack(s.open, o);
      var i :| 0 <= i < |s.open| && s.open[i].pos == o;
      assert StackEntryOk(c, cls, s, i, k);
    }
  }

  /** A closing bracket that closes nothing available changes nothing. */
  lemma LoneCloserStep(c: Ctx, cls: seq<BidiClass>, s: PairState, k: nat)
    requires k < |cls| == |c.chars| && ScanOk(c, cls, s, k) && IsCloser(c, cls, k)
    requires Seek(s.open, c.chars[k].ch, |s.open|) < 0
    ensures ScanOk(c, cls, s, k + 1)
  {
    var pairs, next := Found(s.pairs), k + 1;
    SeekFindsNearest(c, cls, s, k);
    assert ClosedBefore(pairs, k);
    BD16Step(c, cls, pairs, pairs, k);
    hide IsBD16;
    forall o: nat ensures Available(c, cls, pairs, o, next) <==> Available(c, cls, pairs, o, k) {
      StillAvailable(c, cls, pairs, o, k);
    }
    hide Available;
    forall i | 0 <= i < |s.open| ensures StackEntryOk(c, cls, s, i, next) {
      assert StackEntryOk(c, cls, s, i, k);
    }
    assert StackIsAvailable(c, cls, s, next);
  }

  lemma FoundNext(pairs: seq<Pair>, p: Pair)
    ensures Found(pairs + [p]) == Found(pairs) + {p}
  {
  }

  /** A closing bracket takes the nearest opening bracket it closes off the stack, with all above it. */
  lemma PairedCloserStep(c: Ctx, cls: seq<BidiClass>, s: PairState, k: nat, d: nat)
    requires k < |cls| == |c.chars| && ScanOk(c, cls, s, k) && IsCloser(c, cls, k)
    requires d == Seek(s.open, c.chars[k].ch, |s.open|)
    ensures ScanOk(c, cls, PairState(s.open[..d], s.pairs + [Pair(s.open[d].pos, k)]), k + 1)
  {
    var p, t := Pair(s.open[d].pos, k), PairState(s.open[..d], s.pairs + [Pair(s.open[d].pos, k)]);
    var pairs, next := Found(s.pairs), k + 1;
    FoundNext(s.pairs, p);
    SeekFindsNearest(c, cls, s, k);
    assert StackEntryOk(c, cls, s, d, k);
    assert ClosedBefore(pairs, k);
    NearestPairsUp(c, cls, s, k, d);
    BD16Step(c, cls, pairs, Found(t.pairs), k);
    hide IsBD16, Seek, Found;
    forall o: nat ensures Available(c, cls, Found(t.pairs), o, next) <==> Available(c, cls, pairs, o, k) && o < p.opening {
      UsedUp(c, cls, pairs, p.opening, o, k);
    }
    hide Available;
    forall i | 0 <= i < d ensures StackEntryOk(c, cls, t, i, next) {
      assert StackEntryOk(c, cls, s, i, k);
    }
    forall o: nat | Available(c, cls, Found(t.pairs), o, next) ensures OnStack(t.open, o) {
      assert OnStack(s.open, o);
      var i :| 0 <= i < |s.open| && s.open[i].pos == o;
      assert i < d;
      assert t.open[i].pos == o;
    }
    assert StackIsAvailable(c, cls, t, next);
  }

  lemma NearestPairsUp(c: Ctx, cls: seq<BidiClass>, s: PairState, k: nat, d: nat)
    requires k < |cls| == |c.chars| && ScanOk(c, cls, s, k) && IsCloser(c, cls, k)
    requires d == Seek(s.open, c.chars[k].ch, |s.open|)
    ensures forall p: Pair :: p.closing == k ==> (p == Pair(s.open[d].pos, k) <==> PairsUp(c, cls, Found(s.pairs), p))
  {
    SeekFindsNearest(c, cls, s, k);
    assert StackEntryOk(c, cls, s, d, k);
    hide IsBD16, Available, Seek;
    forall p: Pair | p.closing == k ensures p == Pair(s.open[d].pos, k) <==> PairsUp(c, cls, Found(s.pairs), p) {
    }
  }

  lemma ScanStep(c: Ctx, cls: seq<BidiClass>, s: PairState, k: nat)
    requires k < |cls| == |c.chars| && PairStep(c, cls, s, k).Some? && ScanOk(c, cls, s, k)
    ensures ScanOk(c, cls, PairStep(c, cls, s, k).value, k + 1)
  {
    hide ScanOk;
    if IsCloser(c, cls, k) {
      var d := Seek(s.open, c.chars[k].ch, |s.open|);
      if d < 0 {
        LoneCloserStep(c, cls, s, k);
      } else {
        PairedCloserStep(c, cls, s, k, d);
      }
    } else {
      NoCloserStep(c, cls, s, PairStep(c, cls, s, k).value.open, k);
    }
  }

  /** Until the bracket stack overflows, the scan finds exactly the pairs of BD16. */
  lemma {:induction false} ScanIsBD16(c: Ctx, cls: seq<BidiClass>, k: nat)
    requires k <= |cls| == |c.chars| && PairScan(c, cls, k).Some?
    ensures ScanOk(c, cls, PairScan(c, cls, k).value, k)
  {
    if k > 0 {
      hide ScanOk, PairStep;
      ScanIsBD16(c, cls, k - 1);
      ScanStep(c, cls, PairScan(c, cls, k - 1).value, k - 1);
    }
  }

  ghost function AvailableAt(c: Ctx, cls: seq<BidiClass>, pairs: set<Pair>, k: nat): set<nat>
    requires k <= |cls| == |c.chars|
  {
    set o: nat | o < k && Available(c, cls, pairs, o, k)
  }

  lemma {:induction false} PositionsCount(open: seq<Opener>, positions: set<nat>)
    requires forall i, j :: 0 <= i < j < |open| ==> open[i].pos < open[j].pos
    requires forall o: nat :: o in positions <==> OnStack(open, o)
    ensures |positions| == |open|
  {
    if open == [] {
      assert positions == {};
    } else {
      var last := |open| - 1;
      var below := positions - {open[last].pos};
      assert OnStack(open, open[last].pos);
      forall o: nat ensures o in below <==> OnStack(open[..last], o) {
        if o in below {
          var i :| 0 <= i < |open| && open[i].pos == o;
          assert open[..last][i].pos == o;
        }
        if OnStack(open[..last], o) {
          var i :| 0 <= i < last && open[..last][i].pos == o;
          assert open[i].pos == o;
        }
      }
      PositionsCount(open[..last], below);
    }
  }

  /** The scan gives up at an opening bracket exactly when 63 are available already. */
  lemma GivesUpIff(c: Ctx, cls: seq<BidiClass>, k: nat)
    requires k < |cls| == |c.chars| && PairScan(c, cls, k).Some?
    ensures PairScan(c, cls, k + 1).None?
            <==> IsOpener(c, cls, k)
                 && |AvailableAt(c, cls, Found(PairScan(c, cls, k).value.pairs), k)| >= MAX_PAIRING_DEPTH
  {
    ScanIsBD16(c, cls, k);
    var s := PairScan(c, cls, k).value;
    var positions := AvailableAt(c, cls, Found(s.pairs), k);
    forall o: nat ensures o in positions <==> OnStack(s.open, o) {
      if OnStack(s.open, o) {
        var i :| 0 <= i < |s.open| && s.open[i].pos == o;
        assert StackEntryOk(c, cls, s, i, k);
      }
    }
    PositionsCount(s.open, positions);
  }

  // ----- what N0 makes of the pairs -----

  /** Brackets of the table are of class ON, so they are no combining marks. */
  ghost predicate BracketsAreNoMarks(c: Ctx) {
    && (c.chars == [] || |c.chars| == |c.orig|)
    && forall k :: 0 <= k < |c.chars| && c.chars[k].bracket.Some? ==> c.orig[k] != NSM
  }

  /** No two of these pairs share a position. */
  ghost predicate Apart(pairs: seq<Pair>) {
    forall i, j :: 0 <= i < j < |pairs| ==>
      && pairs[i].opening != pairs[j].opening && pairs[i].closing != pairs[j].closing
      && pairs[i].opening != pairs[j].closing && pairs[i].closing != pairs[j].opening
  }

  /** What the pair got when its turn came, if it was among the first `m`. */
  ghost function PairClass(c: Ctx, cls: seq<BidiClass>, pairs: seq<Pair>, i: nat, m: nat): BidiClass
    requires i < |pairs| && m <= |pairs| && PairsIn(pairs, |cls|) && |cls| == |c.levels| == |c.orig|
  {
    if i < m then
      match PairDirection(c, ResolvePairs(c, cls, pairs, i), pairs[i])
      case Some(d) => d.AsClass()
      case None => ON
    else ON
  }

  lemma PairsKeepTheirClass(c: Ctx, cls: seq<BidiClass>, pairs: seq<Pair>, i: nat, m: nat)
    requires |cls| == |c.levels| == |c.orig| == |c.chars| && PairsIn(pairs, |cls|) && Apart(pairs)
    requires BracketPairs(c, cls, pairs, |cls|) && BracketsAreNoMarks(c) && i < |pairs| && m <= |pairs|
    ensures ResolvePairs(c, cls, pairs, m)[pairs[i].opening] == PairClass(c, cls, pairs, i, m)
    ensures ResolvePairs(c, cls, pairs, m)[pairs[i].closing] == PairClass(c, cls, pairs, i, m)
  {
    BracketIs(c, cls, pairs, i);
    hide *;
    BracketKeepsClass(c, cls, pairs, i, m, pairs[i].opening);
    BracketKeepsClass(c, cls, pairs, i, m, pairs[i].closing);
  }

  lemma BracketIs(c: Ctx, cls: seq<BidiClass>, pairs: seq<Pair>, i: nat)
    requires |cls| == |c.levels| == |c.orig| == |c.chars| && BracketPairs(c, cls, pairs, |cls|) && BracketsAreNoMarks(c) && i < |pairs|
    ensures pairs[i].opening < pairs[i].closing < |cls|
    ensures cls[pairs[i].opening] == cls[pairs[i].closing] == ON
    ensures c.orig[pairs[i].opening] != NSM && c.orig[pairs[i].closing] != NSM
  {
    assert IsBracketPair(c, cls, pairs[i], |cls|);
  }

  lemma {:induction false} BracketKeepsClass(c: Ctx, cls: seq<BidiClass>, pairs: seq<Pair>, i: nat, m: nat, k: nat)
    requires |cls| == |c.levels| == |c.orig| && PairsIn(pairs, |cls|) && Apart(pairs) && i < |pairs| && m <= |pairs|
    requires k < |cls| && (k == pairs[i].opening || k == pairs[i].closing) && c.orig[k] != NSM && cls[k] == ON
    ensures ResolvePairs(c, cls, pairs, m)[k] == PairClass(c, cls, pairs, i, m)
  {
    if m > 0 {
      hide PairDirection, MarksFollow, Apart, ResolvePair;
      BracketKeepsClass(c, cls, pairs, i, m - 1, k);
      if i != m - 1 {
        OtherPair(pairs, i, m - 1);
      }
      PairSetsOwn(c, ResolvePairs(c, cls, pairs, m - 1), pairs[m - 1], k);
    }
  }

  lemma OtherPair(pairs: seq<Pair>, i: nat, j: nat)
    requires Apart(pairs) && i < |pairs| && j < |pairs| && i != j
    ensures pairs[i].opening != pairs[j].opening && pairs[i].closing != pairs[j].closing
    ensures pairs[i].opening != pairs[j].closing && pairs[i].closing != pairs[j].opening
  {
  }

  /** Resolving a pair gives its direction to its two brackets, and to nothing else that is no mark. */
  lemma PairSetsOwn(c: Ctx, cls: seq<BidiClass>, p: Pair, k: nat)
    requires p.opening < p.closing < |cls| == |c.levels| == |c.orig| && k < |cls| && c.orig[k] != NSM
    ensures |ResolvePair(c, cls, p)| == |cls|
    ensures ResolvePair(c, cls, p)[k] ==
            if (k == p.opening || k == p.closing) && PairDirection(c, cls, p).Some?
            then PairDirection(c, cls, p).value.AsClass() else cls[k]
  {
    hide PairDirection;
  }

  lemma {:induction false} FoundOnce(c: Ctx, cls: seq<BidiClass>, k: nat)
    requires k <= |cls| == |c.chars| && PairScan(c, cls, k).Some?
    ensures forall i, j :: 0 <= i < j < |PairScan(c, cls, k).value.pairs| ==>
              PairScan(c, cls, k).value.pairs[i] != PairScan(c, cls, k).value.pairs[j]
  {
    if k > 0 {
      FoundOnce(c, cls, k - 1);
      ScanFindsBrackets(c, cls, k - 1);
      var s := PairScan(c, cls, k - 1).value;
      assert forall i :: 0 <= i < |s.pairs| ==> IsBracketPair(c, cls, s.pairs[i], k - 1);
    }
  }

  ghost predicate AllDifferent(pairs: seq<Pair>) {
    forall i, j :: 0 <= i < j < |pairs| ==> pairs[i] != pairs[j]
  }

  lemma {:induction false} DifferentOnce(pairs: seq<Pair>)
    ensures AllDifferent(pairs) <==> forall p :: multiset(pairs)[p] <= 1
  {
    if pairs != [] {
      var rest := pairs[1..];
      assert pairs == [pairs[0]] + rest;
      DifferentOnce(rest);
      if AllDifferent(pairs) {
        assert pairs[0] !in rest;
      }
      if forall p :: multiset(pairs)[p] <= 1 {
        forall p ensures multiset(rest)[p] <= 1 {
          assert multiset(pairs)[p] <= 1;
        }
        assert multiset(pairs)[pairs[0]] <= 1;
        assert pairs[0] !in multiset(rest);
        forall j | 0 < j < |pairs| ensures pairs[0] != pairs[j] {
          assert rest[j - 1] in rest;
        }
        forall i, j | 0 < i < j < |pairs| ensures pairs[i] != pairs[j] {
          assert rest[i - 1] != rest[j - 1];
        }
      }
    }
  }

  /** The pairs N0 resolves are those of BD16, each once, in the order of their opening brackets. */
  lemma PairsOfIsBD16(c: Ctx, cls: seq<BidiClass>)
    requires |cls| == |c.chars| && !Overflows(c, cls)
    ensures IsBD16(c, cls, Found(PairsOf(c, cls)), |cls|)
    ensures Sorted(PairsOf(c, cls)) && Apart(PairsOf(c, cls))
  {
    var found, pairs := PairScan(c, cls, |cls|).value.pairs, PairsOf(c, cls);
    ScanIsBD16(c, cls, |cls|);
    FoundOnce(c, cls, |cls|);
    SortIsSorted(found);
    SortKeepsMembers(found);
    assert Found(pairs) == Found(found);
    assert AllDifferent(found);
    hide SortPairs, PairsOf, PairScan;
    DifferentOnce(found);
    DifferentOnce(pairs);
    assert AllDifferent(pairs);
    BD16IsApart(c, cls, pairs);
  }

  lemma BD16IsApart(c: Ctx, cls: seq<BidiClass>, pairs: seq<Pair>)
    requires |cls| == |c.chars| && IsBD16(c, cls, Found(pairs), |cls|) && AllDifferent(pairs)
    ensures Apart(pairs)
  {
    hide IsBD16;
    forall i, j | 0 <= i < j < |pairs|
      ensures pairs[i].opening != pairs[j].opening && pairs[i].closing != pairs[j].closing
              && pairs[i].opening != pairs[j].closing && pairs[i].closing != pairs[j].opening
    {
      PairsNestOrAreDisjoint(c, cls, Found(pairs), |cls|, pairs[i], pairs[j]);
    }
  }

  /** After N0 the two brackets of every pair have the same class, the one the pair was given in its turn:
      neither the pairs resolved later nor the marks that follow brackets undo it. */
  lemma BothBracketsAgree(c: Ctx, cls: seq<BidiClass>, i: nat)
    requires Sized(c, cls) && |cls| == |c.chars| && !Overflows(c, cls) && BracketsAreNoMarks(c)
    requires i < |PairsOf(c, cls)|
    ensures var p := PairsOf(c, cls)[i];
            && N0(c, cls)[p.opening] == N0(c, cls)[p.closing]
            && N0(c, cls)[p.opening] == PairClass(c, cls, PairsOf(c, cls), i, |PairsOf(c, cls)|)
  {
    PairsOfIsBD16(c, cls);
    PairsKeepTheirClass(c, cls, PairsOf(c, cls), i, |PairsOf(c, cls)|);
  }
}
