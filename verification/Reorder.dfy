/** Rule L2 (section 3.4 of UAX #9): `reverse_levels` works on the positions of a line, removed
    characters included; the rule itself is stated on the characters that are left. */
module Reorder {
  import opened Options
  import opened BidiTypes

  /** The placeholder for a removed character, `usize::max_value()`. */
  const DELETED: nat := 0xFFFF_FFFF_FFFF_FFFF

  // ----- the rule on a line without removed characters -----

  /** First position of the maximal stretch at `level` or higher that holds `j`. */
  function RangeStart(c: seq<Level>, level: int, j: nat): (s: nat)
    requires j < |c| && c[j] >= level
    ensures s <= j && (s > 0 ==> c[s - 1] < level)
    ensures forall i :: s <= i <= j ==> c[i] >= level
  {
    if j == 0 || c[j - 1] < level then j else RangeStart(c, level, j - 1)
  }

  /** The position after the last of that stretch. */
  function RangeEnd(c: seq<Level>, level: int, j: nat): (e: nat)
    requires j < |c| && c[j] >= level
    ensures j < e <= |c| && (e < |c| ==> c[e] < level)
    ensures forall i :: j <= i < e ==> c[i] >= level
    decreases |c| - j
  {
    if j + 1 == |c| || c[j + 1] < level then j + 1 else RangeEnd(c, level, j + 1)
  }

  /** Where the character shown at `j` comes from when every stretch at `level` or higher is reversed. */
  function Mirror(c: seq<Level>, level: int, j: nat): (i: nat)
    requires j < |c|
    ensures i < |c|
    ensures c[j] >= level <==> c[i] >= level
  {
    if c[j] < level then j else RangeStart(c, level, j) + RangeEnd(c, level, j) - 1 - j
  }

  function ReverseRanges<T>(c: seq<Level>, level: int, w: seq<T>): (r: seq<T>)
    requires |w| == |c|
  {
    seq(|c|, j requires 0 <= j < |c| => w[Mirror(c, level, j)])
  }

  /** From level `hi` down to level `lo`. */
  function ReverseDown<T>(c: seq<Level>, hi: int, lo: int, w: seq<T>): (r: seq<T>)
    requires |w| == |c|
    ensures |r| == |c|
    decreases hi - lo
  {
    if hi < lo then w else ReverseDown(c, hi - 1, lo, ReverseRanges(c, hi, w))
  }

  function Highest(c: seq<Level>): (h: int)
    ensures h >= 0 && forall j :: 0 <= j < |c| ==> c[j] <= h
    ensures h == 0 || exists j :: 0 <= j < |c| && c[j] == h
  {
    if c == [] then 0
    else
      var h := Highest(c[..|c| - 1]);
      var last := c[|c| - 1];
      if last > h then last else h
  }

  predicate IsOdd(level: Level) {
    RemTwo(level) == 1
  }

  const NO_ODD_LEVEL: int := MAX_DEPTH + 1

  /** The lowest odd level, or 126 when there is none, which is how the source initialises it. */
  function LowestOdd(c: seq<Level>): (l: int)
    ensures l <= NO_ODD_LEVEL
    ensures forall j :: 0 <= j < |c| && IsOdd(c[j]) ==> l <= c[j]
    ensures l == NO_ODD_LEVEL || exists j :: 0 <= j < |c| && IsOdd(c[j]) && c[j] == l
  {
    if c == [] then NO_ODD_LEVEL
    else
      var l := LowestOdd(c[..|c| - 1]);
      var last := c[|c| - 1];
      if IsOdd(last) && last < l then last else l
  }

  ghost predicate HasOdd(c: seq<Level>) {
    exists j :: 0 <= j < |c| && IsOdd(c[j])
  }

  /** L2 as UAX #9 states it. */
  ghost function L2<T>(c: seq<Level>, w: seq<T>): seq<T>
    requires |w| == |c|
  {
    if HasOdd(c) then ReverseDown(c, Highest(c), LowestOdd(c), w) else w
  }

  // ----- positions with placeholders -----

  /** The levels of the characters before position `a` that were not removed. */
  function KeptUpTo(levels: seq<Level>, a: nat): (c: seq<Level>)
    requires a <= |levels|
    ensures |c| <= a
    ensures forall j :: 0 <= j < |c| ==> !Removed(c[j])
  {
    if a == 0 then []
    else KeptUpTo(levels, a - 1) + (if Removed(levels[a - 1]) then [] else [levels[a - 1]])
  }

  function Kept(levels: seq<Level>): seq<Level> {
    KeptUpTo(levels, |levels|)
  }

  function Rank(levels: seq<Level>, a: nat): nat
    requires a <= |levels|
  {
    |KeptUpTo(levels, a)|
  }

  /** `retain(|i| i != DELETED)` */
  function Retain(v: seq<nat>): (r: seq<nat>)
    ensures |r| <= |v|
  {
    if v == [] then []
    else Retain(v[..|v| - 1]) + (if v[|v| - 1] == DELETED then [] else [v[|v| - 1]])
  }

  function Rev<T>(s: seq<T>): (r: seq<T>)
    ensures |r| == |s|
  {
    seq(|s|, i requires 0 <= i < |s| => s[|s| - 1 - i])
  }

  /** The last character before `a` that was not removed is at `level` or higher. */
  function InRange(levels: seq<Level>, level: int, a: nat): bool
    requires a <= |levels|
  {
    if a == 0 then false
    else if Removed(levels[a - 1]) then InRange(levels, level, a - 1)
    else levels[a - 1] >= level
  }

  /** No stretch at `level` or higher, trailing placeholders included, lies across position `a`. */
  predicate Cut(levels: seq<Level>, level: int, a: nat)
    requires a <= |levels|
  {
    || a == |levels|
    || !InRange(levels, level, a)
    || (!Removed(levels[a]) && levels[a] < level)
  }

  /** Up to every cut, what is shown by position is what the rule shows on the kept characters. */
  ghost predicate Agrees(levels: seq<Level>, level: int, v: seq<nat>, w: seq<nat>) {
    && |v| == |levels| && |w| == |Kept(levels)|
    && forall a: nat :: a <= |levels| && Cut(levels, level, a) ==> AgreesAt(levels, v, w, a)
  }

  ghost predicate AgreesAt(levels: seq<Level>, v: seq<nat>, w: seq<nat>, a: nat)
    requires a <= |levels| == |v|
  {
    Rank(levels, a) <= |w| && Retain(v[..a]) == w[..Rank(levels, a)]
  }

  lemma {:induction false} RetainConcat(a: seq<nat>, b: seq<nat>)
    ensures Retain(a + b) == Retain(a) + Retain(b)
  {
    if b == [] {
      assert a + b == a;
    } else {
      RetainConcat(a, b[..|b| - 1]);
      assert (a + b)[..|a + b| - 1] == a + b[..|b| - 1];
    }
  }

  lemma {:induction false} RetainRev(s: seq<nat>)
    ensures Retain(Rev(s)) == Rev(Retain(s))
  {
    if s == [] {
    } else {
      var last := s[|s| - 1];
      RetainRev(s[..|s| - 1]);
      assert Rev(s) == [last] + Rev(s[..|s| - 1]);
      RetainConcat([last], Rev(s[..|s| - 1]));
      assert [last][..0] == [];
      assert Retain([last]) == if last == DELETED then [] else [last];
    }
  }

  lemma {:induction false} KeptPrefix(levels: seq<Level>, a: nat, b: nat)
    requires a <= b <= |levels|
    ensures Rank(levels, a) <= Rank(levels, b)
    ensures KeptUpTo(levels, a) == KeptUpTo(levels, b)[..Rank(levels, a)]
  {
    if a < b {
      KeptPrefix(levels, a, b - 1);
    }
  }

  lemma KeptAt(levels: seq<Level>, a: nat)
    requires a < |levels| && !Removed(levels[a])
    ensures Rank(levels, a) < |Kept(levels)| && Kept(levels)[Rank(levels, a)] == levels[a]
    ensures Rank(levels, a + 1) == Rank(levels, a) + 1
  {
    KeptPrefix(levels, a + 1, |levels|);
  }

  lemma {:induction false} InRangeIsLast(levels: seq<Level>, level: int, a: nat)
    requires a <= |levels|
    ensures Rank(levels, a) <= |Kept(levels)|
    ensures InRange(levels, level, a) <==> Rank(levels, a) > 0 && Kept(levels)[Rank(levels, a) - 1] >= level
  {
    KeptPrefix(levels, a, |levels|);
    if a > 0 {
      InRangeIsLast(levels, level, a - 1);
      if !Removed(levels[a - 1]) {
        KeptAt(levels, a - 1);
      }
    }
  }

  /** What lies between two agreeing positions agrees. */
  lemma SliceAgrees(levels: seq<Level>, v: seq<nat>, w: seq<nat>, s: nat, e: nat)
    requires s <= e <= |levels| == |v|
    requires AgreesAt(levels, v, w, s) && AgreesAt(levels, v, w, e)
    ensures Rank(levels, s) <= Rank(levels, e) && Retain(v[s..e]) == w[Rank(levels, s)..Rank(levels, e)]
  {
    KeptPrefix(levels, s, e);
    RetainConcat(v[..s], v[s..e]);
    assert v[..e] == v[..s] + v[s..e];
  }

  /** Agreement up to `s` extends over a slice that agrees. */
  lemma ExtendAgrees(levels: seq<Level>, v: seq<nat>, w: seq<nat>, s: nat, e: nat)
    requires s <= e <= |levels| == |v|
    requires AgreesAt(levels, v, w, s)
    requires Rank(levels, s) <= Rank(levels, e) <= |w| && Retain(v[s..e]) == w[Rank(levels, s)..Rank(levels, e)]
    ensures AgreesAt(levels, v, w, e)
  {
    RetainConcat(v[..s], v[s..e]);
    assert v[..e] == v[..s] + v[s..e];
  }

  /** `[s, e)` is a maximal stretch at `level` or higher, with its trailing placeholders. */
  ghost predicate IsRange(levels: seq<Level>, level: int, s: nat, e: nat) {
    && s < e <= |levels|
    && !Removed(levels[s]) && levels[s] >= level && !InRange(levels, level, s)
    && (forall i :: s <= i < e ==> Removed(levels[i]) || levels[i] >= level)
  }

  lemma OneFurther(levels: seq<Level>, level: int, a: nat)
    requires a < |levels|
    ensures Rank(levels, a) <= Rank(levels, a + 1) <= |Kept(levels)|
    ensures if Removed(levels[a]) then
              Rank(levels, a + 1) == Rank(levels, a) && InRange(levels, level, a + 1) == InRange(levels, level, a)
            else
              && Rank(levels, a + 1) == Rank(levels, a) + 1 && Kept(levels)[Rank(levels, a)] == levels[a]
              && (InRange(levels, level, a + 1) <==> levels[a] >= level)
  {
    KeptPrefix(levels, a + 1, |levels|);
    if !Removed(levels[a]) {
      KeptAt(levels, a);
    }
  }

  lemma {:induction false} RangeRanks(levels: seq<Level>, level: int, s: nat, e: nat)
    requires IsRange(levels, level, s, e)
    ensures Rank(levels, s) < Rank(levels, e) <= |Kept(levels)|
    ensures forall j :: Rank(levels, s) <= j < Rank(levels, e) ==> Kept(levels)[j] >= level
    ensures Rank(levels, s) > 0 ==> Kept(levels)[Rank(levels, s) - 1] < level
    ensures InRange(levels, level, e)
    decreases e
  {
    InRangeIsLast(levels, level, s);
    OneFurther(levels, level, e - 1);
    assert !InRange(levels, level, s);
    if e > s + 1 {
      RangeRanks(levels, level, s, e - 1);
    }
    hide InRange, Rank, Kept, KeptUpTo;
  }

  lemma {:induction false} StretchStart(c: seq<Level>, level: int, rs: nat, j: nat)
    requires rs <= j < |c| && forall i :: rs <= i <= j ==> c[i] >= level
    requires rs > 0 ==> c[rs - 1] < level
    ensures RangeStart(c, level, j) == rs
    decreases j
  {
    if rs < j {
      StretchStart(c, level, rs, j - 1);
    }
  }

  lemma {:induction false} StretchEnd(c: seq<Level>, level: int, re: nat, j: nat)
    requires j < re <= |c| && forall i :: j <= i < re ==> c[i] >= level
    requires re < |c| ==> c[re] < level
    ensures RangeEnd(c, level, j) == re
    decreases re - j
  {
    if j + 1 < re {
      StretchEnd(c, level, re, j + 1);
    }
  }

  lemma StretchReversedAt(c: seq<Level>, level: int, w: seq<nat>, rs: nat, re: nat, j: nat)
    requires rs <= j < re <= |c| == |w| && (forall i :: rs <= i < re ==> c[i] >= level)
    requires rs > 0 ==> c[rs - 1] < level
    requires re < |c| ==> c[re] < level
    ensures ReverseRanges(c, level, w)[j] == w[rs + re - 1 - j]
  {
    StretchStart(c, level, rs, j);
    StretchEnd(c, level, re, j);
    hide RangeStart, RangeEnd;
  }

  /** On a maximal stretch the rule reverses. */
  lemma StretchReversed(c: seq<Level>, level: int, w: seq<nat>, rs: nat, re: nat)
    requires rs <= re <= |c| == |w| && (forall i :: rs <= i < re ==> c[i] >= level)
    requires rs > 0 ==> c[rs - 1] < level
    requires re < |c| ==> c[re] < level
    ensures ReverseRanges(c, level, w)[rs..re] == Rev(w[rs..re])
  {
    var r := ReverseRanges(c, level, w);
    assert |r| == |c|;
    hide ReverseRanges;
    forall j: nat | rs <= j < re ensures r[j] == w[rs + re - 1 - j] {
      StretchReversedAt(c, level, w, rs, re, j);
    }
  }

  /** While the pass for `level` stands at `i`: everything before `d` is done, the rest is untouched. */
  ghost predicate PassAt(levels: seq<Level>, level: int, v0: seq<nat>, v: seq<nat>, w: seq<nat>, d: nat)
    requires |w| == |Kept(levels)|
  {
    && |v| == |v0| == |levels| && d <= |levels|
    && v[d..] == v0[d..]
    && AgreesAt(levels, v, ReverseRanges(Kept(levels), level, w), d)
    && forall a: nat :: a <= d && Cut(levels, level, a) ==> AgreesAt(levels, v, ReverseRanges(Kept(levels), level, w), a)
  }

  lemma AgreesPrefix(levels: seq<Level>, v: seq<nat>, v': seq<nat>, w: seq<nat>, a: nat, d: nat)
    requires a <= d <= |levels| == |v| == |v'| && v[..d] == v'[..d]
    ensures AgreesAt(levels, v, w, a) <==> AgreesAt(levels, v', w, a)
  {
    assert v[..a] == v[..d][..a] == v'[..d][..a] == v'[..a];
  }

  lemma HigherCut(levels: seq<Level>, level: int, a: nat)
    requires a <= |levels| && Cut(levels, level, a)
    ensures Cut(levels, level + 1, a)
  {
    InRangeIsLast(levels, level, a);
    InRangeIsLast(levels, level + 1, a);
  }

  /** The pass moves over a position that is in no stretch. */
  lemma PassSkips(levels: seq<Level>, level: int, v0: seq<nat>, v: seq<nat>, w: seq<nat>, i: nat)
    requires |w| == |Kept(levels)| && i < |levels|
    requires Agrees(levels, level + 1, v0, w) && PassAt(levels, level, v0, v, w, i)
    requires if Removed(levels[i]) then !InRange(levels, level, i) else levels[i] < level
    ensures PassAt(levels, level, v0, v, w, i + 1)
    ensures !InRange(levels, level, i + 1)
  {
    var r := ReverseRanges(Kept(levels), level, w);
    OneFurther(levels, level, i);
    SkippedSlice(levels, level, v0, w, i);
    assert v[i..i + 1] == v[i..][..1] == v0[i..][..1] == v0[i..i + 1];
    assert v[i + 1..] == v[i..][1..] == v0[i..][1..] == v0[i + 1..];
    hide ReverseRanges, InRange, Rank, Retain, Kept, KeptUpTo, AgreesAt, Agrees, Cut;
    ExtendAgrees(levels, v, r, i, i + 1);
  }

  /** A slice of one position outside the stretches is as the rule leaves it. */
  lemma SkippedSlice(levels: seq<Level>, level: int, v0: seq<nat>, w: seq<nat>, i: nat)
    requires |w| == |Kept(levels)| && i < |levels| == |v0|
    requires Agrees(levels, level + 1, v0, w) && Cut(levels, level, i) && Cut(levels, level, i + 1)
    requires Removed(levels[i]) || levels[i] < level
    ensures Rank(levels, i) <= Rank(levels, i + 1) <= |w|
    ensures Retain(v0[i..i + 1]) == ReverseRanges(Kept(levels), level, w)[Rank(levels, i)..Rank(levels, i + 1)]
  {
    HigherCut(levels, level, i);
    HigherCut(levels, level, i + 1);
    SliceAgrees(levels, v0, w, i, i + 1);
    OneFurther(levels, level, i);
    var r := ReverseRanges(Kept(levels), level, w);
    hide InRange, Rank, Retain, Kept, KeptUpTo, AgreesAt, Agrees, Cut;
    if !Removed(levels[i]) {
      assert r[Rank(levels, i)] == w[Rank(levels, i)];
    }
  }

  /** The pass reverses a stretch (or leaves one that holds at most one character). */
  lemma PassReverses(levels: seq<Level>, level: int, v0: seq<nat>, v: seq<nat>, next: seq<nat>, w: seq<nat>, s: nat, e: nat)
    requires |w| == |Kept(levels)| && IsRange(levels, level, s, e) && Cut(levels, level, e)
    requires Agrees(levels, level + 1, v0, w) && PassAt(levels, level, v0, v, w, s)
    requires next == v[..s] + Rev(v[s..e]) + v[e..] || (next == v && Rank(levels, e) - Rank(levels, s) <= 1)
    ensures PassAt(levels, level, v0, next, w, e)
  {
    var r := ReverseRanges(Kept(levels), level, w);
    hide Mirror, ReverseRanges, InRange, Cut, Rank, Retain, KeptUpTo, Rev, IsRange;
    assert v[..s] + Rev(v[s..e]) + v[e..] == v[..s] + (Rev(v[s..e]) + v[e..]);
    assert next[..s] == v[..s];
    assert next[e..] == v[e..] == v[s..][e - s..] == v0[s..][e - s..] == v0[e..];
    ReversedAgrees(levels, level, v0, v, next, w, s, e);
    forall a: nat | a <= e && Cut(levels, level, a) ensures AgreesAt(levels, next, r, a) {
      if s < a < e {
        NoCutInside(levels, level, s, a, e);
      } else if a <= s {
        AgreesPrefix(levels, next, v, r, a, s);
      }
    }
  }

  lemma ReversedAgrees(levels: seq<Level>, level: int, v0: seq<nat>, v: seq<nat>, next: seq<nat>, w: seq<nat>, s: nat, e: nat)
    requires |w| == |Kept(levels)| && IsRange(levels, level, s, e) && Cut(levels, level, e)
    requires Agrees(levels, level + 1, v0, w) && PassAt(levels, level, v0, v, w, s)
    requires next == v[..s] + Rev(v[s..e]) + v[e..] || (next == v && Rank(levels, e) - Rank(levels, s) <= 1)
    requires |next| == |v| && next[..s] == v[..s]
    ensures AgreesAt(levels, next, ReverseRanges(Kept(levels), level, w), e)
  {
    var c, r := Kept(levels), ReverseRanges(Kept(levels), level, w);
    RangeRanks(levels, level, s, e);
    StretchEndsAt(levels, level, s, e);
    BothCut(levels, level, v0, v, w, s, e);
    assert |v| == |v0| == |levels| && v[s..] == v0[s..];
    hide Mirror, ReverseRanges, InRange, Cut, Rank, Retain, KeptUpTo, Kept, IsRange, Agrees, AgreesAt, PassAt, Rev;
    SliceAgrees(levels, v0, w, s, e);
    assert v[s..e] == v[s..][..e - s] == v0[s..][..e - s] == v0[s..e];
    StretchReversed(c, level, w, Rank(levels, s), Rank(levels, e));
    SliceReversed(v, next, s, e);
    ReversedOrShort(v[s..e], next[s..e], w[Rank(levels, s)..Rank(levels, e)]);
    AgreesPrefix(levels, next, v, r, s, s);
    ExtendAgrees(levels, next, r, s, e);
  }

  lemma BothCut(levels: seq<Level>, level: int, v0: seq<nat>, v: seq<nat>, w: seq<nat>, s: nat, e: nat)
    requires |w| == |Kept(levels)| && IsRange(levels, level, s, e) && Cut(levels, level, e)
    requires Agrees(levels, level + 1, v0, w) && PassAt(levels, level, v0, v, w, s)
    ensures AgreesAt(levels, v0, w, s) && AgreesAt(levels, v0, w, e)
    ensures AgreesAt(levels, v, ReverseRanges(Kept(levels), level, w), s)
  {
    HigherCut(levels, level, s);
    HigherCut(levels, level, e);
  }

  lemma ReversedOrShort(v: seq<nat>, next: seq<nat>, ws: seq<nat>)
    requires Retain(v) == ws
    requires next == Rev(v) || (next == v && |ws| <= 1)
    ensures Retain(next) == Rev(ws)
  {
    RetainRev(v);
    if |ws| <= 1 {
      assert Rev(ws) == ws;
    }
  }

  lemma SliceReversed(v: seq<nat>, next: seq<nat>, s: nat, e: nat)
    requires s <= e <= |v|
    ensures next == v[..s] + Rev(v[s..e]) + v[e..] ==> next[s..e] == Rev(v[s..e])
  {
  }

  lemma StretchEndsAt(levels: seq<Level>, level: int, s: nat, e: nat)
    requires IsRange(levels, level, s, e) && Cut(levels, level, e)
    ensures Rank(levels, e) <= |Kept(levels)|
    ensures Rank(levels, e) < |Kept(levels)| ==> Kept(levels)[Rank(levels, e)] < level
  {
    RangeRanks(levels, level, s, e);
    if e < |levels| {
      KeptAt(levels, e);
    }
  }

  lemma NoCutInside(levels: seq<Level>, level: int, s: nat, a: nat, e: nat)
    requires IsRange(levels, level, s, e) && s < a < e
    ensures !Cut(levels, level, a)
  {
    RangeRanks(levels, level, s, a);
  }

  lemma PassStarts(levels: seq<Level>, level: int, v0: seq<nat>, w: seq<nat>)
    requires |w| == |Kept(levels)| && Agrees(levels, level + 1, v0, w)
    ensures PassAt(levels, level, v0, v0, w, 0)
  {
    assert v0[..0] == [];
  }

  lemma PassEnds(levels: seq<Level>, level: int, v0: seq<nat>, v: seq<nat>, w: seq<nat>)
    requires |w| == |Kept(levels)| && PassAt(levels, level, v0, v, w, |levels|)
    ensures Agrees(levels, level, v, ReverseRanges(Kept(levels), level, w))
  {
  }

  /** One pass of `reverse_levels` over the line, for one level. */
  method ReversePass(levels: seq<Level>, level: int, v0: seq<nat>, ghost w: seq<nat>) returns (visual: seq<nat>)
    requires level > NO_LEVEL && Agrees(levels, level + 1, v0, w)
    ensures Agrees(levels, level, visual, ReverseRanges(Kept(levels), level, w))
  {
    visual := v0;
    var i := 0;
    var inRange, significantRange := false, false;
    var firstPos: Option<nat> := None;
    var lastPos: Option<nat> := None;
    PassStarts(levels, level, v0, w);
    hide Agrees, PassAt, IsRange, InRange, Cut, Rank, Rev;
    while i < |levels|
      invariant 0 <= i <= |levels| == |visual|
      invariant inRange == InRange(levels, level, i)
      invariant inRange ==> firstPos.Some? && IsRange(levels, level, firstPos.value, i) && firstPos.value < i
      invariant inRange ==> lastPos == if i - 1 > firstPos.value then Some(i - 1) else None
      invariant inRange ==> significantRange || Rank(levels, i) - Rank(levels, firstPos.value) <= 1
      invariant !inRange ==> firstPos.None? && lastPos.None?
      invariant PassAt(levels, level, v0, visual, w, if inRange then firstPos.value else i)
    {
      if levels[i] >= level {
        if !inRange {
          inRange := true;
          firstPos := Some(i);
          RangeBegins(levels, level, i);
        } else {
          // Hit a second explicit level
          significantRange := true;
          lastPos := Some(i);
          RangeGoesOn(levels, level, firstPos.value, i);
        }
      } else if Removed(levels[i]) {
        // Don't break ranges for deleted controls
        if inRange {
          lastPos := Some(i);
          RangeGoesOn(levels, level, firstPos.value, i);
        } else {
          PassSkips(levels, level, v0, visual, w, i);
        }
      } else {
        // End of a range
        if inRange {
          CutAt(levels, level, i);
          visual := ReverseStretch(levels, level, v0, visual, w, firstPos, lastPos, significantRange, i);
        }
        inRange := false;
        PassSkips(levels, level, v0, visual, w, i);
        firstPos, lastPos := None, None;
      }
      i := i + 1;
    }
    if inRange {
      CutAt(levels, level, i);
      visual := ReverseStretch(levels, level, v0, visual, w, firstPos, lastPos, significantRange, i);
    }
    PassEnds(levels, level, v0, visual, w);
  }

  // The reversal at the end of a stretch.
  method ReverseStretch(levels: seq<Level>, level: int, ghost v0: seq<nat>, v: seq<nat>, ghost w: seq<nat>,
                        firstPos: Option<nat>, lastPos: Option<nat>, significantRange: bool, ghost e: nat) returns (visual: seq<nat>)
    requires Agrees(levels, level + 1, v0, w) && firstPos.Some? && IsRange(levels, level, firstPos.value, e) && Cut(levels, level, e)
    requires lastPos == if e - 1 > firstPos.value then Some((e - 1) as nat) else None
    requires significantRange || Rank(levels, e) - Rank(levels, firstPos.value) <= 1
    requires PassAt(levels, level, v0, v, w, firstPos.value)
    ensures |visual| == |v| && PassAt(levels, level, v0, visual, w, e)
  {
    visual := v;
    if lastPos.None? {
      OneCharacter(levels, firstPos.value);
    }
    if lastPos.Some? && significantRange && lastPos.value > firstPos.value {
      visual := v[..firstPos.value] + Rev(v[firstPos.value..lastPos.value + 1]) + v[lastPos.value + 1..];
    }
    PassReverses(levels, level, v0, v, visual, w, firstPos.value, e);
  }

  lemma OneCharacter(levels: seq<Level>, s: nat)
    requires s < |levels|
    ensures Rank(levels, s + 1) - Rank(levels, s) <= 1
  {
  }

  lemma RangeBegins(levels: seq<Level>, level: int, i: nat)
    requires i < |levels| && level > NO_LEVEL && levels[i] >= level && !InRange(levels, level, i)
    ensures IsRange(levels, level, i, i + 1) && InRange(levels, level, i + 1)
    ensures Rank(levels, i + 1) - Rank(levels, i) <= 1
  {
  }

  lemma RangeGoesOn(levels: seq<Level>, level: int, s: nat, i: nat)
    requires i < |levels| && IsRange(levels, level, s, i) && InRange(levels, level, i)
    requires Removed(levels[i]) || levels[i] >= level
    ensures IsRange(levels, level, s, i + 1) && InRange(levels, level, i + 1)
    ensures Removed(levels[i]) ==> Rank(levels, i + 1) == Rank(levels, i)
  {
  }

  lemma CutAt(levels: seq<Level>, level: int, i: nat)
    requires i <= |levels|
    requires i < |levels| ==> !Removed(levels[i]) && levels[i] < level
    ensures Cut(levels, level, i)
  {
  }

  /** The levels of a resolved line. */
  ghost predicate LineOk(levels: seq<Level>) {
    forall i :: 0 <= i < |levels| ==> Removed(levels[i]) || 0 <= levels[i] <= MAX_DEPTH + 1
  }

  /** The paragraph positions of the characters before `a` that were not removed. */
  function KeptPositions(levels: seq<Level>, first: nat, a: nat): (w: seq<nat>)
    requires a <= |levels|
    ensures |w| == Rank(levels, a)
  {
    if a == 0 then []
    else KeptPositions(levels, first, a - 1) + (if Removed(levels[a - 1]) then [] else [first + a - 1])
  }

  function Shown(levels: seq<Level>, first: nat): (w: seq<nat>)
    ensures |w| == |Kept(levels)|
  {
    KeptPositions(levels, first, |levels|)
  }

  lemma {:induction false} PositionsPrefix(levels: seq<Level>, first: nat, a: nat, b: nat)
    requires a <= b <= |levels|
    ensures Rank(levels, a) <= Rank(levels, b)
    ensures KeptPositions(levels, first, a) == KeptPositions(levels, first, b)[..Rank(levels, a)]
  {
    KeptPrefix(levels, a, b);
    if a < b {
      PositionsPrefix(levels, first, a, b - 1);
      KeptPrefix(levels, a, b - 1);
    }
  }

  lemma Initially(levels: seq<Level>, level: int, first: nat, v: seq<nat>)
    requires |v| == |levels| && first + |levels| <= DELETED
    requires forall i :: 0 <= i < |levels| ==> v[i] == if Removed(levels[i]) then DELETED else i + first
    ensures Agrees(levels, level, v, Shown(levels, first))
  {
    forall a: nat | a <= |levels| && Cut(levels, level, a) ensures AgreesAt(levels, v, Shown(levels, first), a) {
      RetainInitial(levels, first, v, a);
      PositionsPrefix(levels, first, a, |levels|);
    }
  }

  lemma {:induction false} RetainInitial(levels: seq<Level>, first: nat, v: seq<nat>, a: nat)
    requires |v| == |levels| && first + |levels| <= DELETED && a <= |levels|
    requires forall i :: 0 <= i < |levels| ==> v[i] == if Removed(levels[i]) then DELETED else i + first
    ensures Retain(v[..a]) == KeptPositions(levels, first, a)
  {
    if a > 0 {
      RetainInitial(levels, first, v, a - 1);
      assert v[..a][..a - 1] == v[..a - 1];
    }
  }

  lemma Appended(c: seq<Level>, x: Level)
    ensures Highest(c + [x]) == if x > Highest(c) then x else Highest(c)
    ensures LowestOdd(c + [x]) == if IsOdd(x) && x < LowestOdd(c) then x else LowestOdd(c)
  {
    assert (c + [x])[..|c|] == c;
  }

  lemma NoBounds()
    ensures Highest([]) == 0 && LowestOdd([]) == NO_ODD_LEVEL
  {
  }

  lemma KeptStart(levels: seq<Level>)
    ensures KeptUpTo(levels, 0) == []
  {
  }

  lemma KeptStep(levels: seq<Level>, i: nat)
    requires i < |levels|
    ensures KeptUpTo(levels, i + 1) == KeptUpTo(levels, i) + (if Removed(levels[i]) then [] else [levels[i]])
  {
  }

  lemma BoundsStep(levels: seq<Level>, i: nat)
    requires i < |levels|
    ensures var c, d, x := KeptUpTo(levels, i), KeptUpTo(levels, i + 1), levels[i];
            if Removed(x) then d == c
            else
              && d != []
              && Highest(d) == (if x > Highest(c) then x else Highest(c))
              && LowestOdd(d) == (if IsOdd(x) && x < LowestOdd(c) then x else LowestOdd(c))
  {
    KeptStep(levels, i);
    Appended(KeptUpTo(levels, i), levels[i]);
    hide Highest, LowestOdd, KeptUpTo, IsOdd;
    if Removed(levels[i]) {
      assert KeptUpTo(levels, i) + [] == KeptUpTo(levels, i);
    }
  }

  lemma OddIsPositive(levels: seq<Level>)
    requires LineOk(levels)
    ensures LowestOdd(Kept(levels)) >= 1
  {
    var c := Kept(levels);
    if LowestOdd(c) != NO_ODD_LEVEL {
      var j :| 0 <= j < |c| && IsOdd(c[j]) && c[j] == LowestOdd(c);
      assert RemTwo(c[j]) == 1 ==> c[j] >= 1;
    }
  }

  /** The highest level, the lowest odd level, and whether there is any level at all. */
  method LevelBounds(levels: seq<Level>) returns (highestLevel: int, lowestOddLevel: int, noLevels: bool)
    ensures highestLevel == Highest(Kept(levels)) && lowestOddLevel == LowestOdd(Kept(levels))
    ensures noLevels <==> Kept(levels) == []
  {
    highestLevel, lowestOddLevel, noLevels := 0, MAX_DEPTH + 1, true;
    NoBounds();
    hide Highest, LowestOdd, KeptUpTo;
    KeptStart(levels);
    for i := 0 to |levels|
      invariant highestLevel == Highest(KeptUpTo(levels, i)) && lowestOddLevel == LowestOdd(KeptUpTo(levels, i))
      invariant noLevels <==> KeptUpTo(levels, i) == []
    {
      var level := levels[i];
      BoundsStep(levels, i);
      if Removed(level) {
        continue;
      }
      noLevels := false;
      if level > highestLevel {
        highestLevel := level;
      }
      if IsOdd(level) && level < lowestOddLevel {
        lowestOddLevel := level;
      }
    }
  }

  /** The characters of the line in the order in which the source shows them. */
  ghost function LineOrder(levels: seq<Level>, first: nat): (visual: seq<nat>)
    ensures |visual| == |Kept(levels)|
  {
    ReverseDown(Kept(levels), Highest(Kept(levels)), LowestOdd(Kept(levels)), Shown(levels, first))
  }

  /** `reverse_levels` without L3: level by level over the positions of the line, and yet what is shown
      is what the rule shows of the characters that are left. */
  method ReverseLevels(firstCidx: nat, levels: seq<Level>) returns (visual: seq<nat>)
    requires LineOk(levels) && firstCidx + |levels| <= DELETED
    ensures visual == LineOrder(levels, firstCidx)
  {
    var highestLevel, lowestOddLevel, noLevels := LevelBounds(levels);
    ghost var c := Kept(levels);
    OddIsPositive(levels);
    if noLevels {
      NothingToShow(c, highestLevel, lowestOddLevel, Shown(levels, firstCidx));
      return [];
    }
    // Initial visual order
    visual := [];
    for i := 0 to |levels|
      invariant |visual| == i
      invariant forall j :: 0 <= j < i ==> visual[j] == if Removed(levels[j]) then DELETED else j + firstCidx
    {
      visual := visual + [if Removed(levels[i]) then DELETED else i + firstCidx];
    }
    visual := ReverseAll(levels, highestLevel, lowestOddLevel, visual, firstCidx);
    visual := Retain(visual);
  }

  // The passes of L2, from the highest level down to the lowest odd level.
  method ReverseAll(levels: seq<Level>, highestLevel: int, lowestOddLevel: int, v0: seq<nat>, ghost first: nat) returns (visual: seq<nat>)
    requires |v0| == |levels| && first + |levels| <= DELETED && lowestOddLevel >= 1
    requires forall i :: 0 <= i < |levels| ==> v0[i] == if Removed(levels[i]) then DELETED else i + first
    ensures Retain(visual) == ReverseDown(Kept(levels), highestLevel, lowestOddLevel, Shown(levels, first))
  {
    ghost var c := Kept(levels);
    visual := v0;
    ghost var w := Shown(levels, first);
    Initially(levels, highestLevel + 1, first, visual);
    hide Agrees, Kept, ReverseRanges, Shown, Retain;
    var level := highestLevel;
    while level >= lowestOddLevel
      invariant lowestOddLevel - 1 <= level || level == highestLevel
      invariant |w| == |c| && Agrees(levels, level + 1, visual, w)
      invariant ReverseDown(c, level, lowestOddLevel, w) == ReverseDown(c, highestLevel, lowestOddLevel, Shown(levels, first))
    {
      visual := ReversePass(levels, level, visual, w);
      RangesLength(c, level, w);
      w := ReverseRanges(c, level, w);
      level := level - 1;
    }
    FinallyShown(levels, level + 1, visual, w);
  }

  lemma RangesLength(c: seq<Level>, level: int, w: seq<nat>)
    requires |w| == |c|
    ensures |ReverseRanges(c, level, w)| == |c|
  {
  }

  lemma FinallyShown(levels: seq<Level>, level: int, v: seq<nat>, w: seq<nat>)
    requires Agrees(levels, level, v, w)
    ensures Retain(v) == w
  {
    assert Cut(levels, level, |levels|);
    assert AgreesAt(levels, v, w, |levels|);
    assert v[..|levels|] == v && w[..|w|] == w;
  }

  lemma NothingToShow(c: seq<Level>, hi: int, lo: int, w: seq<nat>)
    requires c == [] && w == []
    ensures ReverseDown(c, hi, lo, w) == []
  {
  }

  // ----- what the rule gives -----

  ghost predicate NoDuplicates<T>(w: seq<T>) {
    forall i, j :: 0 <= i < j < |w| ==> w[i] != w[j]
  }

  ghost predicate Rearranged<T(!new)>(w: seq<T>, r: seq<T>) {
    && |r| == |w| && NoDuplicates(r)
    && forall x :: x in r <==> x in w
  }

  lemma MirrorIsInvolution(c: seq<Level>, level: int, j: nat)
    requires j < |c|
    ensures Mirror(c, level, Mirror(c, level, j)) == j
  {
    if c[j] >= level {
      var s, e, i := RangeStart(c, level, j), RangeEnd(c, level, j), Mirror(c, level, j);
      StretchStart(c, level, s, i);
      StretchEnd(c, level, e, i);
    }
  }

  lemma RangesRearrange<T(!new)>(c: seq<Level>, level: int, w: seq<T>)
    requires |w| == |c| && NoDuplicates(w)
    ensures Rearranged(w, ReverseRanges(c, level, w))
  {
    var r := ReverseRanges(c, level, w);
    hide Mirror;
    forall i, j | 0 <= i < j < |r| ensures r[i] != r[j] {
      MirrorIsInvolution(c, level, i);
      MirrorIsInvolution(c, level, j);
    }
    forall x | x in w ensures x in r {
      var k :| 0 <= k < |w| && w[k] == x;
      MirrorIsInvolution(c, level, k);
      assert r[Mirror(c, level, k)] == x;
    }
  }

  /** The order shown is a permutation of the characters that are left. */
  lemma {:induction false} DownRearranges<T(!new)>(c: seq<Level>, hi: int, lo: int, w: seq<T>)
    requires |w| == |c| && NoDuplicates(w)
    ensures Rearranged(w, ReverseDown(c, hi, lo, w))
    decreases hi - lo
  {
    if hi >= lo {
      RangesRearrange(c, hi, w);
      DownRearranges(c, hi - 1, lo, ReverseRanges(c, hi, w));
    }
  }

  lemma {:induction false} ShownOnce(levels: seq<Level>, first: nat, a: nat)
    requires a <= |levels|
    ensures NoDuplicates(KeptPositions(levels, first, a))
    ensures forall x :: x in KeptPositions(levels, first, a) <==> first <= x < first + a && !Removed(levels[x - first])
  {
    if a > 0 {
      ShownOnce(levels, first, a - 1);
      var prior := KeptPositions(levels, first, a - 1);
      assert first + a - 1 !in prior;
      forall i, j | 0 <= i < j < |KeptPositions(levels, first, a)|
        ensures KeptPositions(levels, first, a)[i] != KeptPositions(levels, first, a)[j]
      {
        assert prior[i] in prior;
      }
    }
  }

  /** The output of `reverse_levels` holds every position of the line that was not removed exactly once. */
  lemma OutputIsPermutation(levels: seq<Level>, first: nat)
    ensures NoDuplicates(LineOrder(levels, first))
    ensures forall x :: x in LineOrder(levels, first) <==> first <= x < first + |levels| && !Removed(levels[x - first])
  {
    ShownOnce(levels, first, |levels|);
    DownRearranges(Kept(levels), Highest(Kept(levels)), LowestOdd(Kept(levels)), Shown(levels, first));
  }

  ghost predicate NeighboursAt126(c: seq<Level>) {
    exists j :: 0 <= j < |c| - 1 && c[j] == NO_ODD_LEVEL && c[j + 1] == NO_ODD_LEVEL
  }

  lemma WithoutOdd(c: seq<Level>)
    requires !HasOdd(c)
    ensures LowestOdd(c) == NO_ODD_LEVEL
  {
  }

  lemma NothingAbove<T>(c: seq<Level>, level: int, w: seq<T>)
    requires |w| == |c|
    requires forall j :: 0 <= j < |c| - 1 ==> c[j] < level || c[j + 1] < level
    ensures ReverseRanges(c, level, w) == w
  {
    var r := ReverseRanges(c, level, w);
    forall j | 0 <= j < |c| ensures r[j] == w[j] {
    }
  }

  /** `lowest_odd_level` starts at 126, which is also the highest level there is: the source reverses
      neighbours at level 126 on a line without odd levels, which L2 leaves alone. Everywhere else it
      does what L2 says. */
  lemma ConformsToL2<T>(c: seq<Level>, w: seq<T>)
    requires |w| == |c| && NoDuplicates(w)
    requires forall j :: 0 <= j < |c| ==> 0 <= c[j] <= NO_ODD_LEVEL
    ensures ReverseDown(c, Highest(c), LowestOdd(c), w) == L2(c, w) <==> HasOdd(c) || !NeighboursAt126(c)
  {
    if !HasOdd(c) {
      WithoutOdd(c);
      if Highest(c) == NO_ODD_LEVEL {
        var r := ReverseRanges(c, NO_ODD_LEVEL, w);
        assert ReverseDown(c, NO_ODD_LEVEL, NO_ODD_LEVEL, w) == r;
        if NeighboursAt126(c) {
          var j :| 0 <= j < |c| - 1 && c[j] == NO_ODD_LEVEL && c[j + 1] == NO_ODD_LEVEL;
          NeighboursSwap(c, NO_ODD_LEVEL, w, j);
        } else {
          NothingAbove(c, NO_ODD_LEVEL, w);
        }
      } else {
        assert ReverseDown(c, Highest(c), NO_ODD_LEVEL, w) == w;
      }
    }
  }

  lemma NeighboursSwap<T>(c: seq<Level>, level: int, w: seq<T>, j: nat)
    requires |w| == |c| && NoDuplicates(w) && j < |c| - 1 && c[j] >= level && c[j + 1] >= level
    ensures ReverseRanges(c, level, w) != w
  {
    var s, e := RangeStart(c, level, j), RangeEnd(c, level, j);
    StretchStart(c, level, s, s);
    StretchEnd(c, level, e, s);
    assert e >= j + 2 && Mirror(c, level, s) == e - 1;
    assert ReverseRanges(c, level, w)[s] == w[e - 1];
  }

  // ----- the runs of the visual order -----

  function Identity(n: nat): seq<nat> {
    seq(n, i requires 0 <= i < n => i)
  }

  /** `pi` says for every visual position which logical position is shown there. */
  ghost predicate Moves(c: seq<Level>, pi: seq<nat>) {
    && |pi| == |c|
    && forall t :: 0 <= t < |pi| ==> pi[t] < |c|
  }

  /** Where the line shows each of its characters. */
  ghost function VisualOrder(c: seq<Level>): seq<nat> {
    ReverseDown(c, Highest(c), LowestOdd(c), Identity(|c|))
  }

  lemma MovesStep(c: seq<Level>, k: int, pi: seq<nat>)
    requires Moves(c, pi)
    ensures Moves(c, ReverseRanges(c, k, pi))
  {
  }

  lemma {:induction false} DownStaysMoves(c: seq<Level>, hi: int, lo: int, pi: seq<nat>)
    requires Moves(c, pi)
    ensures Moves(c, ReverseDown(c, hi, lo, pi))
    decreases hi - lo
  {
    if hi >= lo {
      MovesStep(c, hi, pi);
      DownStaysMoves(c, hi - 1, lo, ReverseRanges(c, hi, pi));
    }
  }

  function Arrange<T>(c: seq<Level>, pi: seq<nat>, w: seq<T>): (r: seq<T>)
    requires |w| == |c| && Moves(c, pi)
    ensures |r| == |c|
  {
    seq(|c|, t requires 0 <= t < |c| => w[pi[t]])
  }

  /** Reversing moves positions, whatever is shown at them. */
  lemma {:induction false} DownArranges<T>(c: seq<Level>, hi: int, lo: int, pi: seq<nat>, w: seq<T>)
    requires |w| == |c| && Moves(c, pi) && Moves(c, ReverseDown(c, hi, lo, pi))
    ensures ReverseDown(c, hi, lo, Arrange(c, pi, w)) == Arrange(c, ReverseDown(c, hi, lo, pi), w)
    decreases hi - lo
  {
    if hi >= lo {
      MovesStep(c, hi, pi);
      assert ReverseRanges(c, hi, Arrange(c, pi, w)) == Arrange(c, ReverseRanges(c, hi, pi), w);
      DownArranges(c, hi - 1, lo, ReverseRanges(c, hi, pi), w);
    }
  }

  predicate Reaches(c: seq<Level>, m: int, t: nat)
    requires t < |c|
  {
    c[t] >= m
  }

  /** +1 while a run of `level` still reads forwards, -1 when it has been reversed an odd number of
      times, once every level from the top down to `k` + 1 has been processed. */
  function Sense(level: int, k: int): int {
    if level <= k || (level - k) % 2 == 0 then 1 else -1
  }

  /** Thresholds not processed yet see the same stretches in the visual as in the logical order. */
  ghost predicate SameStretches(c: seq<Level>, pi: seq<nat>, k: int)
    requires Moves(c, pi)
  {
    forall t: nat, m: int :: t < |c| && m <= k ==> (Reaches(c, m, pi[t]) <==> Reaches(c, m, t))
  }

  /** Neighbours of one level in the visual order are neighbours in the logical order, in that sense. */
  ghost predicate VisualNeighbours(c: seq<Level>, pi: seq<nat>, k: int)
    requires Moves(c, pi)
  {
    forall t :: 0 <= t < |c| - 1 && c[pi[t]] == c[pi[t + 1]] ==> pi[t + 1] == pi[t] + Sense(c[pi[t]], k)
  }

  ghost predicate NextShown(c: seq<Level>, pi: seq<nat>, t: nat, sense: int)
    requires Moves(c, pi) && t < |pi|
  {
    0 <= t + sense < |pi| && pi[t + sense] == pi[t] + 1
  }

  /** Neighbours of one level in the logical order are neighbours in the visual order, in that sense. */
  ghost predicate LogicalNeighbours(c: seq<Level>, pi: seq<nat>, k: int)
    requires Moves(c, pi)
  {
    forall t: nat :: t < |c| && pi[t] + 1 < |c| && c[pi[t]] == c[pi[t] + 1] ==> NextShown(c, pi, t, Sense(c[pi[t]], k))
  }

  ghost predicate RunsKept(c: seq<Level>, pi: seq<nat>, k: int) {
    && Moves(c, pi)
    && SameStretches(c, pi, k)
    && VisualNeighbours(c, pi, k)
    && LogicalNeighbours(c, pi, k)
  }

  lemma MirrorStep(c: seq<Level>, k: int, t: nat)
    requires t + 1 < |c| && c[t] >= k && c[t + 1] >= k
    ensures Mirror(c, k, t + 1) == Mirror(c, k, t) - 1
  {
    var s, e := RangeStart(c, k, t), RangeEnd(c, k, t);
    StretchStart(c, k, s, t + 1);
    StretchEnd(c, k, e, t + 1);
  }

  lemma SenseStep(level: int, k: int)
    ensures Sense(level, k - 1) == if level >= k then -Sense(level, k) else 1
    ensures level < k ==> Sense(level, k) == 1
  {
  }

  lemma StretchesStep(c: seq<Level>, pi: seq<nat>, k: int)
    requires Moves(c, pi) && SameStretches(c, pi, k)
    ensures Moves(c, ReverseRanges(c, k, pi)) && SameStretches(c, ReverseRanges(c, k, pi), k - 1)
  {
    var next := ReverseRanges(c, k, pi);
    MovesStep(c, k, pi);
    forall t: nat, m: int | t < |c| && m <= k - 1 ensures Reaches(c, m, next[t]) <==> Reaches(c, m, t) {
      var u := Mirror(c, k, t);
      assert Reaches(c, m, pi[u]) <==> Reaches(c, m, u);
    }
  }

  lemma VisualStep(c: seq<Level>, pi: seq<nat>, k: int)
    requires RunsKept(c, pi, k) && Moves(c, ReverseRanges(c, k, pi))
    ensures VisualNeighbours(c, ReverseRanges(c, k, pi), k - 1)
  {
    var next := ReverseRanges(c, k, pi);
    forall t | 0 <= t < |c| - 1 && c[next[t]] == c[next[t + 1]]
      ensures next[t + 1] == next[t] + Sense(c[next[t]], k - 1)
    {
      hide *;
      VisualStepAt(c, pi, k, t);
    }
  }

  lemma VisualStepAt(c: seq<Level>, pi: seq<nat>, k: int, t: nat)
    requires RunsKept(c, pi, k) && Moves(c, ReverseRanges(c, k, pi)) && t + 1 < |c|
    requires var next := ReverseRanges(c, k, pi); c[next[t]] == c[next[t + 1]]
    ensures var next := ReverseRanges(c, k, pi); next[t + 1] == next[t] + Sense(c[next[t]], k - 1)
  {
    hide Mirror, Sense, LogicalNeighbours;
    var next := ReverseRanges(c, k, pi);
    var u, u' := Mirror(c, k, t), Mirror(c, k, t + 1);
    assert Reaches(c, k, pi[u]) <==> Reaches(c, k, u);
    assert Reaches(c, k, pi[u']) <==> Reaches(c, k, u');
    SenseStep(c[next[t]], k);
    if c[t] >= k {
      MirrorStep(c, k, t);
      assert pi[u' + 1] == pi[u'] + Sense(c[pi[u']], k);
    } else {
      MirrorBelow(c, k, t);
      MirrorBelow(c, k, t + 1);
    }
  }

  lemma MirrorBelow(c: seq<Level>, k: int, t: nat)
    requires t < |c| && c[t] < k
    ensures Mirror(c, k, t) == t
  {
  }

  lemma LogicalStep(c: seq<Level>, pi: seq<nat>, k: int)
    requires RunsKept(c, pi, k) && Moves(c, ReverseRanges(c, k, pi))
    ensures LogicalNeighbours(c, ReverseRanges(c, k, pi), k - 1)
  {
    var next := ReverseRanges(c, k, pi);
    forall t: nat | t < |c| && next[t] + 1 < |c| && c[next[t]] == c[next[t] + 1]
      ensures NextShown(c, next, t, Sense(c[next[t]], k - 1))
    {
      hide *;
      LogicalStepAt(c, pi, k, t);
    }
  }

  lemma LogicalStepAt(c: seq<Level>, pi: seq<nat>, k: int, t: nat)
    requires RunsKept(c, pi, k) && Moves(c, ReverseRanges(c, k, pi)) && t < |c|
    requires var next := ReverseRanges(c, k, pi); next[t] + 1 < |c| && c[next[t]] == c[next[t] + 1]
    ensures var next := ReverseRanges(c, k, pi); NextShown(c, next, t, Sense(c[next[t]], k - 1))
  {
    var next := ReverseRanges(c, k, pi);
    assert forall t :: 0 <= t < |c| ==> next[t] == pi[Mirror(c, k, t)];
    hide Mirror, Sense, ReverseRanges, SameStretches, VisualNeighbours, NextShown;
    assert NextShown(c, pi, Mirror(c, k, t), Sense(c[pi[Mirror(c, k, t)]], k));
    NextStep(c, pi, next, k, t);
  }

  lemma NextStep(c: seq<Level>, pi: seq<nat>, next: seq<nat>, k: int, t: nat)
    requires Moves(c, pi) && Moves(c, next) && SameStretches(c, pi, k) && t < |c|
    requires forall t :: 0 <= t < |c| ==> next[t] == pi[Mirror(c, k, t)]
    requires next[t] + 1 < |c| && c[next[t]] == c[next[t] + 1]
    requires NextShown(c, pi, Mirror(c, k, t), Sense(c[next[t]], k))
    ensures NextShown(c, next, t, Sense(c[next[t]], k - 1))
  {
    hide Mirror, Sense;
    var x := Mirror(c, k, t);
    var y := x + Sense(c[pi[x]], k);
    SenseIsUnit(c[pi[x]], k);
    assert Reaches(c, k, pi[x]) <==> Reaches(c, k, x);
    assert Reaches(c, k, pi[y]) <==> Reaches(c, k, y);
    SenseStep(c[next[t]], k);
    MirrorIsInvolution(c, k, t);
    MirrorIsInvolution(c, k, y);
    if c[t] >= k {
      MirrorStep(c, k, if y == x + 1 then x else y);
    } else {
      MirrorBelow(c, k, t);
      MirrorBelow(c, k, y);
    }
  }

  lemma SenseIsUnit(level: int, k: int)
    ensures Sense(level, k) == 1 || Sense(level, k) == -1
  {
  }

  lemma {:induction false} DownKeepsRuns(c: seq<Level>, hi: int, lo: int, pi: seq<nat>)
    requires RunsKept(c, pi, hi) && lo - 1 <= hi
    ensures RunsKept(c, ReverseDown(c, hi, lo, pi), lo - 1)
    decreases hi - lo
  {
    if hi >= lo {
      StretchesStep(c, pi, hi);
      VisualStep(c, pi, hi);
      LogicalStep(c, pi, hi);
      hide SameStretches, VisualNeighbours, LogicalNeighbours, Moves, ReverseRanges;
      DownKeepsRuns(c, hi - 1, lo, ReverseRanges(c, hi, pi));
    }
  }

  /** Level runs read forwards when their level is even and backwards when it is odd. */
  function Reading(level: Level): int {
    if IsOdd(level) then -1 else 1
  }

  /** `pi` shows every logical level run in one piece, in the reading direction of its level, and
      never two runs of one level side by side. */
  ghost predicate RunsInOrder(c: seq<Level>, pi: seq<nat>) {
    && Moves(c, pi)
    && (forall t :: 0 <= t < |c| - 1 && c[pi[t]] == c[pi[t + 1]] ==> pi[t + 1] == pi[t] + Reading(c[pi[t]]))
    && (forall t: nat :: t < |c| && pi[t] + 1 < |c| && c[pi[t]] == c[pi[t] + 1] ==>
          NextShown(c, pi, t, Reading(c[pi[t]])))
  }

  lemma SenseIsReading(level: Level, lo: int)
    requires RemTwo(lo) == 1 && level >= 0
    requires IsOdd(level) ==> lo <= level
    ensures Sense(level, lo - 1) == Reading(level)
  {
  }

  lemma IdentityKeepsRuns(c: seq<Level>, k: int)
    requires forall j :: 0 <= j < |c| ==> c[j] <= k
    ensures RunsKept(c, Identity(|c|), k)
  {
    var id := Identity(|c|);
    forall t: nat | t < |c| && id[t] + 1 < |c| ensures NextShown(c, id, t, Sense(c[id[t]], k)) {
    }
  }

  lemma IdentityShowsRuns(c: seq<Level>)
    requires !HasOdd(c)
    ensures RunsInOrder(c, Identity(|c|))
  {
    var id := Identity(|c|);
    forall t: nat | t < |c| && id[t] + 1 < |c| ensures NextShown(c, id, t, Reading(c[id[t]])) {
    }
  }

  /** In the order of L2 the maximal stretches of one level are exactly the level runs of the line, each
      ascending when its level is even and descending when it is odd. */
  lemma L2ShowsRuns(c: seq<Level>)
    requires forall j :: 0 <= j < |c| ==> 0 <= c[j] <= NO_ODD_LEVEL
    ensures RunsInOrder(c, L2(c, Identity(|c|)))
  {
    if HasOdd(c) {
      var hi, lo := Highest(c), LowestOdd(c);
      var j :| 0 <= j < |c| && IsOdd(c[j]);
      IdentityKeepsRuns(c, hi);
      assert RemTwo(lo) == 1 && lo - 1 <= hi;
      assert forall t :: 0 <= t < |c| && IsOdd(c[t]) ==> lo <= c[t];
      hide Highest, LowestOdd, HasOdd, IsOdd, RunsKept;
      DownKeepsRuns(c, hi, lo, Identity(|c|));
      var pi := ReverseDown(c, hi, lo, Identity(|c|));
      hide ReverseDown, SameStretches;
      forall t: nat | t < |c| ensures Sense(c[pi[t]], lo - 1) == Reading(c[pi[t]]) {
        SenseIsReading(c[pi[t]], lo);
      }
      hide Sense, Reading;
    } else {
      IdentityShowsRuns(c);
    }
  }
}
