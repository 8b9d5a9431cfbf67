/** The vocabulary of the bidirectional algorithm: character classes (named as in
    Table 4 of UAX #9), directions, and embedding levels held in a signed byte. */
module BidiTypes {
  import opened Options

  datatype BidiClass =
    | AL | AN | BN | CS | EN | ES | ET | FSI | L | LRE | LRI | LRO
    | NSM | ON | B | PDF | PDI | R | RLE | RLI | RLO | S | WS

  datatype Direction = Ltr | Rtl
  {
    function Opposite(): Direction {
      if this == Ltr then Rtl else Ltr
    }

    function AsClass(): BidiClass {
      if this == Ltr then L else R
    }
  }

  datatype Override = NoOverride | OverrideLtr | OverrideRtl

  /** The hint given to `resolve_paragraph`. */
  datatype Hint = HintLtr | HintRtl | HintAutoLtr | HintAutoRtl

  /** A level is a wrapped `i8`: every value assigned to a level is checked to fit. */
  type Level = x: int | -128 <= x <= 127

  const MAX_DEPTH: nat := 125
  const NO_LEVEL: Level := -1

  /** Remainder by two the way Rust computes it: truncated, so it is -1 for negative odd numbers. */
  function RemTwo(x: int): int {
    if x < 0 then -((-x) % 2) else x % 2
  }

  predicate Removed(level: Level) {
    level == NO_LEVEL
  }

  function LevelDirection(level: Level): Direction {
    if RemTwo(level) == 1 then Rtl else Ltr
  }

  function LevelClass(level: Level): BidiClass {
    if RemTwo(level) == 1 then R else L
  }

  function MaxLevel(a: Level, b: Level): Level {
    if a < b then b else a
  }

  /** `level as usize > MAX_DEPTH`: a negative `i8` becomes a huge `usize`. */
  predicate AboveMaxDepth(level: Level) {
    level < 0 || level > MAX_DEPTH
  }

  // The additions below are done in `i8`; callers only pass levels taken from the
  // directional status stack, which never exceed MAX_DEPTH.
  function LeastGreaterEven(level: Level): Option<Level>
    requires level <= MAX_DEPTH
  {
    var next: Level := if RemTwo(level) == 0 then level + 2 else level + 1;
    if AboveMaxDepth(next) then None else Some(next)
  }

  function LeastGreaterOdd(level: Level): Option<Level>
    requires level <= MAX_DEPTH
  {
    var next: Level := if RemTwo(level) == 1 then level + 2 else level + 1;
    if AboveMaxDepth(next) then None else Some(next)
  }

  ghost predicate IsLeastAbove(level: Level, parity: int, next: Option<Level>) {
    match next
    case Some(x) =>
      && level < x <= MAX_DEPTH && x % 2 == parity
      && forall y: int :: level < y < x ==> y % 2 != parity
    case None =>
      forall y: int :: level < y <= MAX_DEPTH ==> y % 2 != parity
  }

  lemma LeastGreaterIsLeast(level: Level)
    requires 0 <= level <= MAX_DEPTH
    ensures IsLeastAbove(level, 0, LeastGreaterEven(level))
    ensures IsLeastAbove(level, 1, LeastGreaterOdd(level))
  {
    assert RemTwo(level) == level % 2;
  }

  predicate IsIsoInit(bc: BidiClass) {
    bc == RLI || bc == LRI || bc == FSI
  }

  predicate IsIsoControl(bc: BidiClass) {
    bc == RLI || bc == LRI || bc == PDI || bc == FSI
  }

  predicate IsNeutral(bc: BidiClass) {
    bc == ON || bc == WS || bc == S || bc == B || IsIsoControl(bc)
  }

  predicate IsEmbedding(bc: BidiClass) {
    bc == RLE || bc == LRE || bc == RLO || bc == LRO
  }

  /** The classes that rule X9 removes from the text. */
  predicate IsRemovedClass(bc: BidiClass) {
    IsEmbedding(bc) || bc == PDF || bc == BN
  }

  predicate IsLetter(bc: BidiClass) {
    bc == L || bc == R
  }

  predicate IsSeparator(bc: BidiClass) {
    bc == ES || bc == CS
  }

  /** R and the numbers, which count as R for N0 and N1. */
  predicate CountsAsR(bc: BidiClass) {
    bc == R || bc == AN || bc == EN
  }

  /** The classes that are left when the implicit levels are resolved. */
  predicate IsFinalClass(bc: BidiClass) {
    bc == L || CountsAsR(bc)
  }

  predicate IsStrong(bc: BidiClass) {
    bc == L || bc == R || bc == AL
  }
}
