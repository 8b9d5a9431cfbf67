/** Rules X1-X9 as a machine over the directional status stack. The slot count `cap` of the stack is
    a parameter: the source has MAX_DEPTH slots, section 3.3.2 of UAX #9 asks for MAX_DEPTH + 2. */
module Explicit {
  import opened Options
  import opened BidiTypes
  import opened Isolates
  import opened LevelStacks

  const UAX_SLOTS: nat := MAX_DEPTH + 2

  datatype Status = Status(stack: seq<Entry>, overflowIsolate: nat, overflowEmbedding: nat, validIsolate: nat)
  {
    function Top(): Entry
      requires stack != []
    {
      TopEntry(stack)
    }

    predicate NoOverflow() {
      overflowIsolate == 0 && overflowEmbedding == 0
    }
  }

  /** The stack starts with the base entry and its levels strictly increase up to MAX_DEPTH. */
  ghost predicate StackOk(base: Level, stack: seq<Entry>) {
    && 0 <= base <= 1
    && stack != [] && stack[0] == Entry(base, NoOverride, false)
    && (forall i, j :: 0 <= i < j < |stack| ==> stack[i].level < stack[j].level)
    && stack[|stack| - 1].level <= MAX_DEPTH
  }

  function IsolateCount(stack: seq<Entry>): nat {
    if stack == [] then 0
    else IsolateCount(stack[..|stack| - 1]) + (if TopEntry(stack).isolate then 1 else 0)
  }

  function Initial(base: Level): Status {
    Status([Entry(base, NoOverride, false)], 0, 0, 0)
  }

  /** The level of the entry an embedding or isolate initiator asks for. */
  function NextLevel(bc: BidiClass, level: Level, fsiRtl: bool): Option<Level>
    requires level <= MAX_DEPTH
  {
    if bc == RLE || bc == RLO || bc == RLI || (bc == FSI && fsiRtl)
    then LeastGreaterOdd(level) else LeastGreaterEven(level)
  }

  function InitiatorOverride(bc: BidiClass): Override {
    if bc == RLO then OverrideRtl else if bc == LRO then OverrideLtr else NoOverride
  }

  // X2-X5
  function OpenEmbedding(cap: nat, s: Status, bc: BidiClass): Status
    requires s.stack != [] && s.Top().level <= MAX_DEPTH
  {
    var next := NextLevel(bc, s.Top().level, false);
    if next.Some? && s.NoOverflow() then
      s.(stack := PushEntry(cap, s.stack, Entry(next.value, InitiatorOverride(bc), false)))
    else if s.overflowIsolate == 0 then s.(overflowEmbedding := s.overflowEmbedding + 1)
    else s
  }

  // X5a-X5c
  function OpenIsolate(cap: nat, s: Status, bc: BidiClass, fsiRtl: bool): Status
    requires s.stack != [] && s.Top().level <= MAX_DEPTH
  {
    var next := NextLevel(bc, s.Top().level, fsiRtl);
    if next.Some? && s.NoOverflow() then
      s.(validIsolate := s.validIsolate + 1, stack := PushEntry(cap, s.stack, Entry(next.value, NoOverride, true)))
    else s.(overflowIsolate := s.overflowIsolate + 1)
  }

  /** The stack after popping entries up to and including the last isolate entry. There is none to
      stop at when the source would run off the bottom of the stack, which panics. */
  function PopIsolate(stack: seq<Entry>): Option<seq<Entry>> {
    if stack == [] then None
    else if TopEntry(stack).isolate then Some(PopEntry(stack))
    else PopIsolate(PopEntry(stack))
  }

  // X6a
  function CloseIsolate(s: Status): Option<Status> {
    if s.overflowIsolate > 0 then Some(s.(overflowIsolate := s.overflowIsolate - 1))
    else if s.validIsolate == 0 then Some(s)
    else match PopIsolate(s.stack)
      case Some(rest) => Some(Status(rest, 0, 0, s.validIsolate - 1))
      case None => None
  }

  // X7
  function CloseEmbedding(s: Status): Status
    requires s.stack != []
  {
    if s.overflowIsolate > 0 then s
    else if s.overflowEmbedding > 0 then s.(overflowEmbedding := s.overflowEmbedding - 1)
    else if !s.Top().isolate && |s.stack| >= 2 then s.(stack := PopEntry(s.stack))
    else s
  }

  function Step(cap: nat, s: Status, bc: BidiClass, fsiRtl: bool): Option<Status>
    requires s.stack != [] && s.Top().level <= MAX_DEPTH
  {
    if IsEmbedding(bc) then Some(OpenEmbedding(cap, s, bc))
    else if IsIsoInit(bc) then Some(OpenIsolate(cap, s, bc, fsiRtl))
    else if bc == PDI then CloseIsolate(s)
    else if bc == PDF then Some(CloseEmbedding(s))
    else Some(s)
  }

  lemma StepCases(cap: nat, s: Status, bc: BidiClass, fsiRtl: bool)
    requires s.stack != [] && s.Top().level <= MAX_DEPTH
    ensures IsEmbedding(bc) ==> Step(cap, s, bc, fsiRtl) == Some(OpenEmbedding(cap, s, bc))
    ensures IsIsoInit(bc) ==> Step(cap, s, bc, fsiRtl) == Some(OpenIsolate(cap, s, bc, fsiRtl))
    ensures bc == PDI ==> Step(cap, s, bc, fsiRtl) == CloseIsolate(s)
    ensures bc == PDF ==> Step(cap, s, bc, fsiRtl) == Some(CloseEmbedding(s))
    ensures !IsEmbedding(bc) && !IsIsoControl(bc) && bc != PDF ==> Step(cap, s, bc, fsiRtl) == Some(s)
  {
  }

  function FsiIsRtl(types: seq<BidiClass>, idx: nat): bool {
    ScanLevel(types, idx + 1, 0, true, Ltr) == 1
  }

  lemma NextLevelIncreases(bc: BidiClass, level: Level, fsiRtl: bool)
    requires 0 <= level <= MAX_DEPTH
    ensures NextLevel(bc, level, fsiRtl).Some? ==> level < NextLevel(bc, level, fsiRtl).value <= MAX_DEPTH
  {
  }

  lemma {:induction false} PopIsolateIsPrefix(stack: seq<Entry>)
    requires PopIsolate(stack).Some?
    ensures |PopIsolate(stack).value| < |stack|
    ensures PopIsolate(stack).value == stack[..|PopIsolate(stack).value|]
    ensures stack[|PopIsolate(stack).value|].isolate
  {
    if !TopEntry(stack).isolate {
      PopIsolateIsPrefix(PopEntry(stack));
    }
  }

  lemma PushKeepsStackOk(cap: nat, base: Level, stack: seq<Entry>, e: Entry)
    requires StackOk(base, stack) && TopEntry(stack).level < e.level <= MAX_DEPTH
    ensures StackOk(base, PushEntry(cap, stack, e))
  {
    var next := stack + [e];
    forall i, j | 0 <= i < j < |next| ensures next[i].level < next[j].level {
      if j == |stack| && i < |stack| - 1 {
        assert stack[i].level < stack[|stack| - 1].level;
      }
    }
  }

  lemma PrefixKeepsStackOk(base: Level, stack: seq<Entry>, n: nat)
    requires StackOk(base, stack) && 1 <= n <= |stack|
    ensures StackOk(base, stack[..n])
  {
    if n < |stack| {
      assert stack[n - 1].level < stack[|stack| - 1].level;
    }
  }

  lemma StackLevels(base: Level, stack: seq<Entry>)
    requires StackOk(base, stack)
    ensures base <= TopEntry(stack).level <= MAX_DEPTH
    ensures !stack[0].isolate
  {
  }

  lemma StepKeepsStackOk(cap: nat, base: Level, s: Status, bc: BidiClass, fsiRtl: bool)
    requires StackOk(base, s.stack)
    ensures Step(cap, s, bc, fsiRtl).Some? ==> StackOk(base, Step(cap, s, bc, fsiRtl).value.stack)
  {
    var stack := s.stack;
    StackLevels(base, stack);
    StepCases(cap, s, bc, fsiRtl);
    hide StackOk, NextLevel, PopIsolate, Step, PushEntry;
    if IsEmbedding(bc) {
      OpenKeepsStackOk(cap, base, stack, bc, false, InitiatorOverride(bc), false);
    } else if IsIsoInit(bc) {
      OpenKeepsStackOk(cap, base, stack, bc, fsiRtl, NoOverride, true);
    } else if bc == PDI {
      if PopIsolate(stack).Some? {
        PopIsolateIsPrefix(stack);
        PrefixKeepsStackOk(base, stack, |PopIsolate(stack).value|);
      }
    } else if |stack| >= 2 {
      PrefixKeepsStackOk(base, stack, |stack| - 1);
    }
  }

  lemma OpenKeepsStackOk(cap: nat, base: Level, stack: seq<Entry>, bc: BidiClass, fsiRtl: bool, ovr: Override, isolate: bool)
    requires StackOk(base, stack)
    ensures 0 <= TopEntry(stack).level <= MAX_DEPTH
    ensures var next := NextLevel(bc, TopEntry(stack).level, fsiRtl);
            next.Some? ==> StackOk(base, PushEntry(cap, stack, Entry(next.value, ovr, isolate)))
  {
    StackLevels(base, stack);
    NextLevelIncreases(bc, TopEntry(stack).level, fsiRtl);
    var next := NextLevel(bc, TopEntry(stack).level, fsiRtl);
    hide StackOk, NextLevel, PushEntry;
    if next.Some? {
      PushKeepsStackOk(cap, base, stack, Entry(next.value, ovr, isolate));
    }
  }

  /** The machine after `k` characters; None when it has panicked. */
  function Run(cap: nat, base: Level, types: seq<BidiClass>, k: nat): (r: Option<Status>)
    requires 0 <= base <= 1 && k <= |types|
    ensures r.Some? ==> StackOk(base, r.value.stack)
  {
    if k == 0 then Some(Initial(base))
    else match Run(cap, base, types, k - 1)
      case None => None
      case Some(s) =>
        StepKeepsStackOk(cap, base, s, types[k - 1], FsiIsRtl(types, k - 1));
        Step(cap, s, types[k - 1], FsiIsRtl(types, k - 1))
  }

  ghost predicate Completes(cap: nat, base: Level, types: seq<BidiClass>) {
    && 0 <= base <= 1
    && forall k :: 0 <= k <= |types| ==> Run(cap, base, types, k).Some?
  }

  /** The status that decides the level and the class of the character at `k`: a PDI belongs to the
      embedding it returns to. */
  function Deciding(cap: nat, base: Level, types: seq<BidiClass>, k: nat): (e: Entry)
    requires 0 <= base <= 1 && k < |types|
    requires Run(cap, base, types, k).Some? && Run(cap, base, types, k + 1).Some?
    ensures 0 <= e.level <= MAX_DEPTH && base <= e.level
  {
    if types[k] == PDI then Run(cap, base, types, k + 1).value.Top()
    else Run(cap, base, types, k).value.Top()
  }

  // X1-X9
  function LevelAt(cap: nat, base: Level, types: seq<BidiClass>, k: nat): Level
    requires 0 <= base <= 1 && k < |types|
    requires Run(cap, base, types, k).Some? && Run(cap, base, types, k + 1).Some?
  {
    if IsRemovedClass(types[k]) then NO_LEVEL
    else if types[k] == B then base
    else Deciding(cap, base, types, k).level
  }

  function ClassAt(cap: nat, base: Level, types: seq<BidiClass>, k: nat): BidiClass
    requires 0 <= base <= 1 && k < |types|
    requires Run(cap, base, types, k).Some? && Run(cap, base, types, k + 1).Some?
  {
    if IsRemovedClass(types[k]) || types[k] == B then types[k]
    else ApplyOverride(Deciding(cap, base, types, k).ovr, types[k])
  }

  ghost function Levels(cap: nat, base: Level, types: seq<BidiClass>): seq<Level>
    requires Completes(cap, base, types)
  {
    seq(|types|, k requires 0 <= k < |types| => LevelAt(cap, base, types, k))
  }

  ghost function Classes(cap: nat, base: Level, types: seq<BidiClass>): seq<BidiClass>
    requires Completes(cap, base, types)
  {
    seq(|types|, k requires 0 <= k < |types| => ClassAt(cap, base, types, k))
  }
}
