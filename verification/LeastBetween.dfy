/** L2 without reversals: which of two characters of a line is shown first. */
module LeastBetween {
  import opened BidiTypes
  import opened Reorder

  /** All levels between two positions, both included, are at `m` or higher. */
  ghost predicate Together(c: seq<Level>, m: int, a: nat, b: nat)
    requires a < |c| && b < |c|
  {
    forall x :: (a <= x <= b || b <= x <= a) ==> c[x] >= m
  }

  /** The least level between two positions, both included. */
  function Least(c: seq<Level>, a: nat, b: nat): (m: Level)
    requires a < |c| && b < |c|
    decreases if a < b then b - a else a - b
  {
    if a == b then c[a]
    else
      var rest := if a < b then Least(c, a, b - 1) else Least(c, a - 1, b);
      var last := if a < b then c[b] else c[a];
      if last < rest then last else rest
  }

  lemma {:induction false} LeastIs(c: seq<Level>, a: nat, b: nat, m: int)
    requires a < |c| && b < |c|
    ensures Least(c, a, b) >= m <==> Together(c, m, a, b)
    decreases if a < b then b - a else a - b
  {
    if a < b {
      LeastIs(c, a, b - 1, m);
    } else if b < a {
      LeastIs(c, a - 1, b, m);
    }
  }

  lemma {:induction false} LeastOccurs(c: seq<Level>, a: nat, b: nat) returns (x: nat)
    requires a < |c| && b < |c|
    ensures x < |c| && c[x] == Least(c, a, b)
    decreases if a < b then b - a else a - b
  {
    if a == b {
      x := a;
    } else {
      x := if a < b then b else a;
      if c[x] >= (if a < b then Least(c, a, b - 1) else Least(c, a - 1, b)) {
        if a < b {
          x := LeastOccurs(c, a, b - 1);
        } else {
          x := LeastOccurs(c, a - 1, b);
        }
      }
    }
  }

  lemma LeastIsSymmetric(c: seq<Level>, a: nat, b: nat)
    requires a < |c| && b < |c|
    ensures Least(c, a, b) == Least(c, b, a)
  {
    LeastIs(c, a, b, Least(c, a, b));
    LeastIs(c, b, a, Least(c, a, b));
    LeastIs(c, b, a, Least(c, b, a));
    LeastIs(c, a, b, Least(c, b, a));
    hide Least;
  }

  lemma TogetherJoins(c: seq<Level>, m: int, a: nat, b: nat, d: nat)
    requires a < |c| && b < |c| && d < |c| && Together(c, m, a, b) && Together(c, m, b, d)
    ensures Together(c, m, a, d) && Together(c, m, b, a)
  {
  }

  /** Reversing moves a position only within its stretch. */
  lemma MirrorIsNear(c: seq<Level>, k: int, t: nat)
    requires t < |c|
    ensures c[t] >= k ==> Together(c, k, t, Mirror(c, k, t))
    ensures c[t] < k ==> Mirror(c, k, t) == t
  {
    if c[t] >= k {
      var s, e := RangeStart(c, k, t), RangeEnd(c, k, t);
      assert forall i :: s <= i < e ==> c[i] >= k;
    }
  }

  lemma MirrorTurns(c: seq<Level>, k: int, t: nat, u: nat)
    requires t < u < |c| && Together(c, k, t, u)
    ensures Mirror(c, k, u) < Mirror(c, k, t)
  {
    var s, e := RangeStart(c, k, t), RangeEnd(c, k, t);
    assert u < e;
    StretchStart(c, k, s, u);
    StretchEnd(c, k, e, u);
  }

  lemma MirrorStays(c: seq<Level>, k: int, t: nat, u: nat)
    requires t < u < |c| && !Together(c, k, t, u)
    ensures Mirror(c, k, t) < Mirror(c, k, u)
  {
    var z :| t <= z <= u && c[z] < k;
    MirrorIsNear(c, k, t);
    MirrorIsNear(c, k, u);
    hide Mirror;
  }

  /** Every character is shown in the stretch it belongs to, for all levels not processed yet. */
  ghost predicate StaysNear(c: seq<Level>, pi: seq<nat>, k: int) {
    && Moves(c, pi)
    && forall t: nat, m: int :: t < |c| && m <= k ==> NearAt(c, pi, m, t)
  }

  ghost predicate NearAt(c: seq<Level>, pi: seq<nat>, m: int, t: nat)
    requires Moves(c, pi) && t < |c|
  {
    && (c[t] >= m <==> c[pi[t]] >= m)
    && (c[t] >= m ==> Together(c, m, t, pi[t]))
  }

  /** Two characters are shown in logical order, or the other way round when the levels above `k` have
      reversed all between them an odd number of times. */
  ghost predicate Ordered(c: seq<Level>, pi: seq<nat>, k: int)
    requires Moves(c, pi)
  {
    forall t: nat, u: nat :: t < u < |c| ==> OrderedAt(c, pi, k, t, u)
  }

  ghost predicate OrderedAt(c: seq<Level>, pi: seq<nat>, k: int, t: nat, u: nat)
    requires Moves(c, pi) && t < u < |c|
  {
    pi[t] != pi[u] && (pi[t] < pi[u] <==> Sense(Least(c, pi[t], pi[u]), k) == 1)
  }

  lemma NearStep(c: seq<Level>, pi: seq<nat>, k: int)
    requires StaysNear(c, pi, k)
    ensures StaysNear(c, ReverseRanges(c, k, pi), k - 1)
  {
    var next := ReverseRanges(c, k, pi);
    MovesStep(c, k, pi);
    forall t: nat, m: int | t < |c| && m <= k - 1 ensures NearAt(c, next, m, t) {
      NearStepAt(c, pi, k, m, t);
    }
  }

  lemma NearStepAt(c: seq<Level>, pi: seq<nat>, k: int, m: int, t: nat)
    requires StaysNear(c, pi, k) && Moves(c, ReverseRanges(c, k, pi)) && m < k && t < |c|
    ensures NearAt(c, ReverseRanges(c, k, pi), m, t)
  {
    var x := Mirror(c, k, t);
    assert ReverseRanges(c, k, pi)[t] == pi[x];
    assert NearAt(c, pi, m, x);
    MirrorIsNear(c, k, t);
    hide Mirror, ReverseRanges, StaysNear;
    if c[t] >= k {
      assert Together(c, m, t, x);
      TogetherJoins(c, m, t, x, pi[x]);
    }
  }

  lemma SenseTurns(m: int, k: int)
    ensures m >= k ==> (Sense(m, k - 1) == 1 <==> Sense(m, k) != 1)
    ensures m < k ==> Sense(m, k - 1) == 1 && Sense(m, k) == 1
  {
  }

  /** Two positions are in one stretch exactly when the characters shown there are. */
  lemma SameStretch(c: seq<Level>, pi: seq<nat>, k: int, t: nat, u: nat)
    requires StaysNear(c, pi, k) && t < |c| && u < |c|
    ensures Moves(c, pi) && (Together(c, k, t, u) <==> Together(c, k, pi[t], pi[u]))
  {
    assert NearAt(c, pi, k, t) && NearAt(c, pi, k, u);
    hide StaysNear;
    var i, j := pi[t], pi[u];
    if Together(c, k, t, u) {
      TogetherJoins(c, k, t, i, t);
      TogetherJoins(c, k, i, t, u);
      TogetherJoins(c, k, i, u, j);
    }
    if Together(c, k, i, j) {
      TogetherJoins(c, k, u, j, u);
      TogetherJoins(c, k, t, i, j);
      TogetherJoins(c, k, t, j, u);
    }
  }

  lemma OrderStepAt(c: seq<Level>, pi: seq<nat>, k: int, t: nat, u: nat)
    requires StaysNear(c, pi, k) && Moves(c, pi) && Ordered(c, pi, k) && t < u < |c| && Moves(c, ReverseRanges(c, k, pi))
    ensures OrderedAt(c, ReverseRanges(c, k, pi), k - 1, t, u)
  {
    var x, y := Mirror(c, k, t), Mirror(c, k, u);
    var next := ReverseRanges(c, k, pi);
    assert next[t] == pi[x] && next[u] == pi[y];
    var m := Least(c, pi[x], pi[y]);
    SenseTurns(m, k);
    LeastIs(c, pi[x], pi[y], k);
    LeastIsSymmetric(c, pi[x], pi[y]);
    SameStretch(c, pi, k, x, y);
    MirrorPair(c, k, t, u);
    hide *;
    if Together(c, k, t, u) {
      OrderAt(c, pi, k, y, x);
    } else {
      OrderAt(c, pi, k, x, y);
    }
    OrderIs(c, next, k - 1, t, u);
  }

  lemma MirrorPair(c: seq<Level>, k: int, t: nat, u: nat)
    requires t < u < |c|
    ensures var x, y := Mirror(c, k, t), Mirror(c, k, u);
            (Together(c, k, t, u) <==> Together(c, k, x, y)) && if Together(c, k, t, u) then y < x else x < y
  {
    var x, y := Mirror(c, k, t), Mirror(c, k, u);
    MirrorIsNear(c, k, t);
    MirrorIsNear(c, k, u);
    if Together(c, k, t, u) {
      MirrorTurns(c, k, t, u);
    } else {
      MirrorStays(c, k, t, u);
    }
    hide Mirror;
  }

  lemma OrderAt(c: seq<Level>, pi: seq<nat>, k: int, t: nat, u: nat)
    requires Moves(c, pi) && Ordered(c, pi, k) && t < u < |c|
    ensures pi[t] < |c| && pi[u] < |c| && pi[t] != pi[u] && (pi[t] < pi[u] <==> Sense(Least(c, pi[t], pi[u]), k) == 1)
  {
    assert OrderedAt(c, pi, k, t, u);
    hide Least, Sense;
  }

  lemma OrderIs(c: seq<Level>, pi: seq<nat>, k: int, t: nat, u: nat)
    requires Moves(c, pi) && t < u < |c|
    ensures pi[t] < |c| && pi[u] < |c|
    ensures OrderedAt(c, pi, k, t, u) <==> pi[t] != pi[u] && (pi[t] < pi[u] <==> Sense(Least(c, pi[t], pi[u]), k) == 1)
  {
    hide Least, Sense;
  }

  lemma OrderStep(c: seq<Level>, pi: seq<nat>, k: int)
    requires StaysNear(c, pi, k) && Moves(c, pi) && Ordered(c, pi, k) && Moves(c, ReverseRanges(c, k, pi))
    ensures Ordered(c, ReverseRanges(c, k, pi), k - 1)
  {
    var next, below := ReverseRanges(c, k, pi), k - 1;
    forall t: nat, u: nat | t < u < |c| ensures OrderedAt(c, next, below, t, u) {
      hide *;
      OrderStepAt(c, pi, k, t, u);
    }
  }

  lemma {:induction false} DownOrders(c: seq<Level>, hi: int, lo: int, pi: seq<nat>)
    requires Moves(c, pi) && StaysNear(c, pi, hi) && Ordered(c, pi, hi) && lo - 1 <= hi
    ensures Moves(c, ReverseDown(c, hi, lo, pi)) && Ordered(c, ReverseDown(c, hi, lo, pi), lo - 1)
    decreases hi - lo
  {
    if hi >= lo {
      MovesStep(c, hi, pi);
      NearStep(c, pi, hi);
      OrderStep(c, pi, hi);
      hide StaysNear, Ordered, Moves, ReverseRanges;
      DownOrders(c, hi - 1, lo, ReverseRanges(c, hi, pi));
    }
  }

  lemma IdentityIsOrdered(c: seq<Level>, k: int)
    requires forall j :: 0 <= j < |c| ==> c[j] <= k
    ensures Moves(c, Identity(|c|)) && StaysNear(c, Identity(|c|), k) && Ordered(c, Identity(|c|), k)
  {
    var id := Identity(|c|);
    forall t: nat, u: nat | t < u < |c| ensures OrderedAt(c, id, k, t, u) {
      var x := LeastOccurs(c, t, u);
      hide Least;
    }
  }

  /** In the order of L2 two characters are shown in logical order exactly when the least level between
      them, their own included, is even. */
  lemma L2ByLeastLevel(c: seq<Level>, t: nat, u: nat)
    requires (forall j :: 0 <= j < |c| ==> 0 <= c[j] <= NO_ODD_LEVEL) && t < u < |c|
    ensures var pi: seq<nat> := L2<nat>(c, Identity(|c|));
            && |pi| == |c| && pi[t] < |c| && pi[u] < |c|
            && pi[t] != pi[u] && (pi[t] < pi[u] <==> Least(c, pi[t], pi[u]) % 2 == 0)
  {
    var pi: seq<nat> := L2<nat>(c, Identity(|c|));
    var hi, lo := Highest(c), LowestOdd(c);
    IdentityIsOrdered(c, hi);
    if HasOdd(c) {
      OddBounds(c);
      assert pi == ReverseDown(c, hi, lo, Identity(|c|));
      hide *;
      DownOrders(c, hi, lo, Identity(|c|));
      OrderAt(c, pi, lo - 1, t, u);
      LeastIsRead(c, pi[t], pi[u]);
    } else {
      var x := LeastOccurs(c, t, u);
      assert !IsOdd(c[x]);
      hide Least;
    }
  }

  lemma OddBounds(c: seq<Level>)
    requires HasOdd(c) && forall j :: 0 <= j < |c| ==> 0 <= c[j] <= NO_ODD_LEVEL
    ensures LowestOdd(c) - 1 <= Highest(c) && LowestOdd(c) % 2 == 1 && 0 <= LowestOdd(c)
  {
    var j :| 0 <= j < |c| && IsOdd(c[j]);
    hide HasOdd;
  }

  lemma LeastIsRead(c: seq<Level>, a: nat, b: nat)
    requires HasOdd(c) && (forall j :: 0 <= j < |c| ==> 0 <= c[j] <= NO_ODD_LEVEL) && a < |c| && b < |c|
    ensures Sense(Least(c, a, b), LowestOdd(c) - 1) == 1 <==> Least(c, a, b) % 2 == 0
  {
    OddBounds(c);
    var x := LeastOccurs(c, a, b);
    SenseIsReading(c[x], LowestOdd(c));
    hide Sense, Least, HasOdd;
  }
}
