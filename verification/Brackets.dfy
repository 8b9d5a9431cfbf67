/** Rule N0: bracket pairs (BD16, section 3.1.3 of UAX #9) and their resolution. */
module Brackets {
  import opened Options
  import opened BidiTypes
  import opened Chains
  import opened Neutral

  const MAX_PAIRING_DEPTH: nat := 63

  datatype Opener = Opener(closer: char, pos: nat)
  datatype Pair = Pair(opening: nat, closing: nat)
  datatype PairState = PairState(open: seq<Opener>, pairs: seq<Pair>)

  /** Equal, or the two canonically equivalent closing angle brackets. */
  predicate SameBracket(a: char, b: char) {
    || a == b
    || (a == '\U{232a}' && b == '\U{3009}')
    || (a == '\U{3009}' && b == '\U{232a}')
  }

  /** The topmost entry below `d` that `ch` closes, or -1. */
  function Seek(open: seq<Opener>, ch: char, d: nat): (r: int)
    requires d <= |open|
    ensures -1 <= r < d
    ensures r >= 0 ==> SameBracket(open[r].closer, ch)
    ensures forall i :: r < i < d ==> !SameBracket(open[i].closer, ch)
  {
    if d == 0 then -1
    else if SameBracket(open[d - 1].closer, ch) then d - 1
    else Seek(open, ch, d - 1)
  }

  function SeekAndPair(s: PairState, ch: char, pos: nat): PairState {
    var d := Seek(s.open, ch, |s.open|);
    if d < 0 then s else PairState(s.open[..d], s.pairs + [Pair(s.open[d].pos, pos)])
  }

  class BracketStack {
    const closingBracket: array<char>
    const position: array<nat>
    var depth: nat
    var pairs: seq<Pair>
    ghost var open: seq<Opener>

    ghost predicate Valid()
      reads this, closingBracket, position
    {
      && closingBracket.Length == position.Length == MAX_PAIRING_DEPTH
      && depth == |open| <= MAX_PAIRING_DEPTH
      && forall i :: 0 <= i < depth ==> open[i] == Opener(closingBracket[i], position[i])
    }

    ghost function State(): PairState
      reads this
    {
      PairState(open, pairs)
    }

    constructor ()
      ensures Valid() && State() == PairState([], [])
      ensures fresh(closingBracket) && fresh(position)
    {
      closingBracket := new char[MAX_PAIRING_DEPTH](_ => ' ');
      position := new nat[MAX_PAIRING_DEPTH](_ => 0);
      depth := 0;
      pairs := [];
      open := [];
    }

    method Clear()
      requires Valid()
      modifies this
      ensures Valid() && State() == PairState([], [])
    {
      pairs := [];
      depth := 0;
      open := [];
    }

    method Push(closer: char, pos: nat) returns (ok: bool)
      requires Valid()
      modifies this, closingBracket, position
      ensures Valid()
      ensures ok <==> |old(open)| < MAX_PAIRING_DEPTH
      ensures State() == if ok then PairState(old(open) + [Opener(closer, pos)], old(pairs)) else old(State())
    {
      if depth >= MAX_PAIRING_DEPTH {
        return false;
      }
      closingBracket[depth] := closer;
      position[depth] := pos;
      depth := depth + 1;
      open := open + [Opener(closer, pos)];
      return true;
    }

    method SeekMatchingOpenBracket(closer: char, pos: nat) returns (found: bool)
      requires Valid()
      modifies this
      ensures Valid()
      ensures State() == SeekAndPair(old(State()), closer, pos)
      ensures found <==> exists i :: 0 <= i < |old(open)| && SameBracket(old(open)[i].closer, closer)
    {
      var d := depth;
      while d > 0
        invariant 0 <= d <= depth
        invariant Seek(open, closer, depth) == Seek(open, closer, d)
        invariant forall i :: d <= i < depth ==> !SameBracket(open[i].closer, closer)
      {
        d := d - 1;
        if closingBracket[d] == closer
          || (closingBracket[d] == '\U{232a}' && closer == '\U{3009}')
          || (closingBracket[d] == '\U{3009}' && closer == '\U{232a}')
        {
          pairs := pairs + [Pair(position[d], pos)];
          depth := d;
          open := open[..d];
          return true;
        }
      }
      return false;
    }
  }

  predicate IsOpener(c: Ctx, cls: seq<BidiClass>, k: nat)
    requires k < |cls| == |c.chars|
  {
    cls[k] == ON && c.chars[k].bracket.Some? && c.chars[k].bracket.value.opens
  }

  predicate IsCloser(c: Ctx, cls: seq<BidiClass>, k: nat)
    requires k < |cls| == |c.chars|
  {
    cls[k] == ON && c.chars[k].bracket.Some? && !c.chars[k].bracket.value.opens
  }

  function PairStep(c: Ctx, cls: seq<BidiClass>, s: PairState, k: nat): Option<PairState>
    requires k < |cls| == |c.chars|
  {
    if IsOpener(c, cls, k) then
      if |s.open| >= MAX_PAIRING_DEPTH then None
      else Some(PairState(s.open + [Opener(c.chars[k].bracket.value.paired, k)], s.pairs))
    else if IsCloser(c, cls, k) then Some(SeekAndPair(s, c.chars[k].ch, k))
    else Some(s)
  }

  /** The bracket scan over the first `k` characters; None once the 64th open bracket has been met. */
  function PairScan(c: Ctx, cls: seq<BidiClass>, k: nat): Option<PairState>
    requires k <= |cls| == |c.chars|
  {
    if k == 0 then Some(PairState([], []))
    else match PairScan(c, cls, k - 1)
      case None => None
      case Some(s) => PairStep(c, cls, s, k - 1)
  }

  predicate Overflows(c: Ctx, cls: seq<BidiClass>)
    requires |cls| == |c.chars|
  {
    PairScan(c, cls, |cls|).None?
  }

  function InsertPair(p: Pair, sorted: seq<Pair>): seq<Pair> {
    if sorted == [] || p.opening <= sorted[0].opening then [p] + sorted
    else [sorted[0]] + InsertPair(p, sorted[1..])
  }

  /** `sort_unstable_by_key(opening_pos)`; opening positions are distinct, so the result is unique. */
  function SortPairs(pairs: seq<Pair>): seq<Pair> {
    if pairs == [] then [] else InsertPair(pairs[0], SortPairs(pairs[1..]))
  }

  ghost predicate HasDirection(cls: seq<BidiClass>, lo: nat, hi: nat, d: Direction)
    requires hi <= |cls|
  {
    exists k :: lo <= k < hi && StrongDirection(cls[k]) == Some(d)
  }

  /** `k` belongs to the combining marks that follow the bracket at `from`. */
  ghost predicate MarksFollow(c: Ctx, from: nat, k: nat)
    requires |c.levels| == |c.orig|
  {
    && from < k < |c.orig| && c.orig[k] == NSM
    && forall m :: from < m < k ==> c.orig[m] == NSM || Removed(c.levels[m])
  }

  ghost function SetPairAt(c: Ctx, cls: seq<BidiClass>, p: Pair, bc: BidiClass, k: nat): BidiClass
    requires k < |cls| == |c.levels| == |c.orig|
  {
    if k == p.opening || k == p.closing then bc
    else if k < p.closing && MarksFollow(c, p.opening, k) then bc
    else if MarksFollow(c, p.closing, k) then bc
    else cls[k]
  }

  ghost function SetPair(c: Ctx, cls: seq<BidiClass>, p: Pair, d: Direction): seq<BidiClass>
    requires |cls| == |c.levels| == |c.orig|
  {
    seq(|cls|, k requires 0 <= k < |cls| => SetPairAt(c, cls, p, d.AsClass(), k))
  }

  /** N0 b and c: the direction one pair is given, if any. */
  ghost function PairDirection(c: Ctx, cls: seq<BidiClass>, p: Pair): Option<Direction>
    requires p.opening < p.closing < |cls| == |c.levels|
  {
    var e := LevelDirection(c.level);
    if HasDirection(cls, p.opening + 1, p.closing, e) then Some(e)
    else if HasDirection(cls, p.opening + 1, p.closing, e.Opposite()) then
      if PriorDirection(c, cls, p.opening) == Some(e.Opposite()) then Some(e.Opposite()) else Some(e)
    else None
  }

  ghost function ResolvePair(c: Ctx, cls: seq<BidiClass>, p: Pair): seq<BidiClass>
    requires p.opening < p.closing < |cls| == |c.levels| == |c.orig|
  {
    match PairDirection(c, cls, p)
    case Some(d) => SetPair(c, cls, p, d)
    case None => cls
  }

  ghost predicate PairsIn(pairs: seq<Pair>, n: nat) {
    forall i :: 0 <= i < |pairs| ==> pairs[i].opening < pairs[i].closing < n
  }

  /** The first `m` pairs resolved one after the other. */
  ghost function ResolvePairs(c: Ctx, cls: seq<BidiClass>, pairs: seq<Pair>, m: nat): (out: seq<BidiClass>)
    requires m <= |pairs| && PairsIn(pairs, |cls|) && |cls| == |c.levels| == |c.orig|
    ensures |out| == |cls|
  {
    if m == 0 then cls else ResolvePair(c, ResolvePairs(c, cls, pairs, m - 1), pairs[m - 1])
  }

  /** Pairs join an opening and a later closing bracket among the first `k` characters. */
  ghost predicate BracketPairs(c: Ctx, cls: seq<BidiClass>, pairs: seq<Pair>, k: nat)
    requires k <= |cls| == |c.chars|
  {
    forall i :: 0 <= i < |pairs| ==> IsBracketPair(c, cls, pairs[i], k)
  }

  ghost predicate IsBracketPair(c: Ctx, cls: seq<BidiClass>, p: Pair, k: nat)
    requires k <= |cls| == |c.chars|
  {
    p.opening < p.closing < k && IsOpener(c, cls, p.opening) && IsCloser(c, cls, p.closing)
  }

  ghost predicate OpenBrackets(c: Ctx, cls: seq<BidiClass>, open: seq<Opener>, k: nat)
    requires k <= |cls| == |c.chars|
  {
    forall i :: 0 <= i < |open| ==> open[i].pos < k && IsOpener(c, cls, open[i].pos)
  }

  lemma {:induction false} ScanFindsBrackets(c: Ctx, cls: seq<BidiClass>, k: nat)
    requires k <= |cls| == |c.chars|
    ensures var r := PairScan(c, cls, k);
            r.Some? ==> BracketPairs(c, cls, r.value.pairs, k) && OpenBrackets(c, cls, r.value.open, k)
  {
    if k > 0 {
      ScanFindsBrackets(c, cls, k - 1);
    }
  }

  lemma {:induction false} InsertAdds(p: Pair, sorted: seq<Pair>)
    ensures multiset(InsertPair(p, sorted)) == multiset(sorted) + multiset{p}
  {
    if sorted != [] && p.opening > sorted[0].opening {
      InsertAdds(p, sorted[1..]);
      assert sorted == [sorted[0]] + sorted[1..];
    }
  }

  lemma {:induction false} InsertKeepsSorted(p: Pair, sorted: seq<Pair>)
    requires Sorted(sorted)
    ensures Sorted(InsertPair(p, sorted))
    ensures forall q :: q in InsertPair(p, sorted) ==> q == p || q in sorted
  {
    if sorted != [] && p.opening > sorted[0].opening {
      InsertKeepsSorted(p, sorted[1..]);
      var rest := InsertPair(p, sorted[1..]);
      forall i | 0 <= i < |rest| ensures sorted[0].opening <= rest[i].opening {
        assert rest[i] in rest;
      }
    }
  }

  ghost predicate Sorted(pairs: seq<Pair>) {
    forall i, j :: 0 <= i < j < |pairs| ==> pairs[i].opening <= pairs[j].opening
  }

  lemma {:induction false} SortIsSorted(pairs: seq<Pair>)
    ensures Sorted(SortPairs(pairs))
    ensures multiset(SortPairs(pairs)) == multiset(pairs)
  {
    if pairs != [] {
      SortIsSorted(pairs[1..]);
      InsertAdds(pairs[0], SortPairs(pairs[1..]));
      InsertKeepsSorted(pairs[0], SortPairs(pairs[1..]));
      assert pairs == [pairs[0]] + pairs[1..];
    }
  }

  lemma SortKeepsMembers(pairs: seq<Pair>)
    ensures forall p :: p in SortPairs(pairs) <==> p in pairs
    ensures |SortPairs(pairs)| == |pairs|
  {
    SortIsSorted(pairs);
    var sorted := SortPairs(pairs);
    assert |multiset(sorted)| == |multiset(pairs)|;
    forall p ensures p in sorted <==> p in pairs {
      assert p in sorted <==> p in multiset(sorted);
      assert p in pairs <==> p in multiset(pairs);
    }
  }

  lemma SortKeepsBrackets(c: Ctx, cls: seq<BidiClass>, pairs: seq<Pair>, k: nat)
    requires k <= |cls| == |c.chars|
    requires BracketPairs(c, cls, pairs, k)
    ensures BracketPairs(c, cls, SortPairs(pairs), k)
  {
    SortKeepsMembers(pairs);
    var sorted := SortPairs(pairs);
    forall i | 0 <= i < |sorted| ensures IsBracketPair(c, cls, sorted[i], k) {
      assert sorted[i] in pairs;
    }
  }

  /** The bracket pairs of a chain in the order in which N0 resolves them. */
  ghost function PairsOf(c: Ctx, cls: seq<BidiClass>): (pairs: seq<Pair>)
    requires |cls| == |c.chars| && !Overflows(c, cls)
    ensures PairsIn(pairs, |cls|) && BracketPairs(c, cls, pairs, |cls|)
  {
    ScanFindsBrackets(c, cls, |cls|);
    SortKeepsBrackets(c, cls, PairScan(c, cls, |cls|).value.pairs, |cls|);
    SortPairs(PairScan(c, cls, |cls|).value.pairs)
  }

  ghost function N0(c: Ctx, cls: seq<BidiClass>): (out: seq<BidiClass>)
    requires |cls| == |c.levels| == |c.orig| == |c.chars| && !Overflows(c, cls)
    ensures |out| == |cls|
  {
    ResolvePairs(c, cls, PairsOf(c, cls), |PairsOf(c, cls)|)
  }
}
