/** The weak rules in the words of UAX #9 (section 3.3.4). */
module WeakFacts {
  import opened Options
  import opened BidiTypes
  import opened Chains
  import opened Weak

  lemma {:induction false} BaseOfKept(c: Ctx, cls: seq<BidiClass>, k: nat)
    requires CtxOk(c, cls) && k <= |cls|
    ensures LastBase(c, cls, k)
            == var p := PrevKept(c.levels, k);
               if p < 0 then c.sos else if cls[p] == NSM then LastBase(c, cls, p) else cls[p]
  {
    if k > 0 && Removed(c.levels[k - 1]) {
      BaseOfKept(c, cls, k - 1);
    }
  }

  /** W1: a nonspacing mark gets the class the rule gives to the character before it (skipping removed
      ones), or sos. */
  lemma MarkTakesPrevious(c: Ctx, cls: seq<BidiClass>, k: nat)
    requires CtxOk(c, cls) && k < |cls|
    ensures W1(c, cls)[k]
            == if cls[k] != NSM then cls[k]
               else var p := PrevKept(c.levels, k); if p < 0 then c.sos else W1(c, cls)[p]
  {
    BaseOfKept(c, cls, k);
  }

  /** The last L, R or AL before `k` is at `j`. */
  ghost predicate LastStrongAt(cls: seq<BidiClass>, j: nat, k: nat) {
    && j < k <= |cls| && (cls[j] == L || cls[j] == R || cls[j] == AL)
    && forall m :: j < m < k ==> cls[m] != L && cls[m] != R && cls[m] != AL
  }

  lemma {:induction false} StrongBefore(sos: BidiClass, cls: seq<BidiClass>, k: nat) returns (last: Option<nat>)
    requires k <= |cls|
    ensures last.Some? ==> LastStrongAt(cls, last.value, k) && LastStrong(sos, cls, k) == cls[last.value]
    ensures last.None? ==> (forall j :: 0 <= j < k ==> !IsStrong(cls[j])) && LastStrong(sos, cls, k) == sos
  {
    if k == 0 {
      last := None;
    } else if IsStrong(cls[k - 1]) {
      last := Some(k - 1);
    } else {
      last := StrongBefore(sos, cls, k - 1);
    }
  }

  /** W2: a European number becomes an Arabic one exactly when the first strong class before it is AL. */
  lemma NumberAfterArabic(c: Ctx, cls: seq<BidiClass>, k: nat)
    requires CtxOk(c, cls) && k < |cls|
    ensures W2(c, cls)[k] != cls[k] <==> cls[k] == EN && exists j: nat :: LastStrongAt(cls, j, k) && cls[j] == AL
    ensures W2(c, cls)[k] != cls[k] ==> W2(c, cls)[k] == AN
  {
    var last := StrongBefore(c.sos, cls, k);
  }

  /** W4: a separator changes exactly between two numbers of one type, skipping removed characters; an
      ES only between European numbers. */
  lemma SeparatorBetweenNumbers(c: Ctx, cls: seq<BidiClass>, k: nat)
    requires CtxOk(c, cls) && k < |cls|
    ensures var p, n, out := PrevKept(c.levels, k), NextKept(c.levels, k + 1), W4(c, cls)[k];
            && (out != cls[k] <==>
                  && p >= 0 && n < |cls| && cls[p] == cls[n] && IsSeparator(cls[k])
                  && (cls[p] == EN || (cls[p] == AN && cls[k] == CS)))
            && (out != cls[k] ==> out == cls[p])
  {
  }

  /** A maximal stretch of terminators, which removed characters do not interrupt. */
  ghost predicate EtStretch(c: Ctx, cls: seq<BidiClass>, lo: nat, hi: nat)
    requires |cls| == |c.levels|
  {
    && lo < hi <= |cls|
    && (forall m :: lo <= m < hi ==> cls[m] == ET || Removed(c.levels[m]))
    && (lo > 0 ==> cls[lo - 1] != ET && !Removed(c.levels[lo - 1]))
    && (hi < |cls| ==> cls[hi] != ET && !Removed(c.levels[hi]))
  }

  /** W5: a stretch of terminators turns into European numbers exactly when it touches one. */
  lemma StretchTouchesNumber(c: Ctx, cls: seq<BidiClass>, lo: nat, hi: nat, k: nat)
    requires CtxOk(c, cls) && EtStretch(c, cls, lo, hi) && lo <= k < hi
    ensures W5(c, cls)[k]
            == if cls[k] == ET && ((lo > 0 && cls[lo - 1] == EN) || (hi < |cls| && cls[hi] == EN)) then EN else cls[k]
  {
    assert W5(c, cls)[k] == W5At(c, cls, k);
    if cls[k] == ET {
      BeforeStretch(c, cls, lo, hi, k);
      AfterStretch(c, cls, lo, hi, k);
    }
  }

  ghost predicate NumberBefore(c: Ctx, cls: seq<BidiClass>, k: nat)
    requires k < |cls| == |c.levels|
  {
    exists j :: 0 <= j < k && cls[j] == EN && AllEt(c, cls, j + 1, k)
  }

  ghost predicate NumberAfter(c: Ctx, cls: seq<BidiClass>, k: nat)
    requires k < |cls| == |c.levels|
  {
    exists j :: k < j < |cls| && cls[j] == EN && AllEt(c, cls, k + 1, j)
  }

  lemma BeforeStretch(c: Ctx, cls: seq<BidiClass>, lo: nat, hi: nat, k: nat)
    requires CtxOk(c, cls) && EtStretch(c, cls, lo, hi) && lo <= k < hi
    ensures NumberBefore(c, cls, k) <==> lo > 0 && cls[lo - 1] == EN
  {
    if NumberBefore(c, cls, k) {
      var j :| 0 <= j < k && cls[j] == EN && AllEt(c, cls, j + 1, k);
      assert j < lo;
      assert j == lo - 1;
    }
    if lo > 0 && cls[lo - 1] == EN {
      assert AllEt(c, cls, lo - 1 + 1, k);
    }
  }

  lemma AfterStretch(c: Ctx, cls: seq<BidiClass>, lo: nat, hi: nat, k: nat)
    requires CtxOk(c, cls) && EtStretch(c, cls, lo, hi) && lo <= k < hi
    ensures NumberAfter(c, cls, k) <==> hi < |cls| && cls[hi] == EN
  {
    if NumberAfter(c, cls, k) {
      var j :| k < j < |cls| && cls[j] == EN && AllEt(c, cls, k + 1, j);
      assert j >= hi;
      assert j == hi;
    }
    if hi < |cls| && cls[hi] == EN {
      assert AllEt(c, cls, k + 1, hi);
    }
  }

  ghost predicate LastLetterAt(cls: seq<BidiClass>, j: nat, k: nat) {
    j < k <= |cls| && (cls[j] == L || cls[j] == R) && forall m :: j < m < k ==> cls[m] != L && cls[m] != R
  }

  lemma {:induction false} LetterBefore(sos: BidiClass, cls: seq<BidiClass>, k: nat) returns (last: Option<nat>)
    requires k <= |cls|
    ensures last.Some? ==> LastLetterAt(cls, last.value, k) && LastLetter(sos, cls, k) == cls[last.value]
    ensures last.None? ==> (forall j :: 0 <= j < k ==> !IsLetter(cls[j])) && LastLetter(sos, cls, k) == sos
  {
    if k == 0 {
      last := None;
    } else if IsLetter(cls[k - 1]) {
      last := Some(k - 1);
    } else {
      last := LetterBefore(sos, cls, k - 1);
    }
  }

  /** W7: a European number becomes L exactly when the first L or R before it, or else sos, is L. */
  lemma NumberAfterLatin(c: Ctx, cls: seq<BidiClass>, k: nat)
    requires CtxOk(c, cls) && k < |cls|
    ensures W7(c, cls)[k] != cls[k] <==>
              && cls[k] == EN
              && ((exists j: nat :: LastLetterAt(cls, j, k) && cls[j] == L)
                  || (c.sos == L && forall j :: 0 <= j < k ==> cls[j] != L && cls[j] != R))
    ensures W7(c, cls)[k] != cls[k] ==> W7(c, cls)[k] == L
  {
    var last := LetterBefore(c.sos, cls, k);
  }
}
