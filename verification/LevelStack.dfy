/** The directional status stack of rules X1-X8: fixed arrays and a depth, as in `level_stack.rs`. */
module LevelStacks {
  import opened BidiTypes

  datatype Entry = Entry(level: Level, ovr: Override, isolate: bool)

  /** A stack of `cap` slots drops a push when it is full. */
  function PushEntry(cap: nat, stack: seq<Entry>, e: Entry): seq<Entry> {
    if |stack| < cap then stack + [e] else stack
  }

  function PopEntry(stack: seq<Entry>): seq<Entry> {
    if stack == [] then [] else stack[..|stack| - 1]
  }

  function TopEntry(stack: seq<Entry>): Entry
    requires stack != []
  {
    stack[|stack| - 1]
  }

  function ApplyOverride(ovr: Override, bc: BidiClass): BidiClass {
    match ovr
    case OverrideLtr => L
    case OverrideRtl => R
    case NoOverride => bc
  }

  class LevelStack {
    const embeddingLevel: array<Level>
    const overrideStatus: array<Override>
    const isolateStatus: array<bool>
    var depth: nat
    ghost var entries: seq<Entry>

    ghost predicate Valid()
      reads this, embeddingLevel, overrideStatus, isolateStatus
    {
      && embeddingLevel.Length == overrideStatus.Length == isolateStatus.Length == MAX_DEPTH
      && depth == |entries| <= MAX_DEPTH
      && forall i :: 0 <= i < depth ==>
           entries[i] == Entry(embeddingLevel[i], overrideStatus[i], isolateStatus[i])
    }

    constructor ()
      ensures Valid() && entries == []
      ensures fresh(embeddingLevel) && fresh(overrideStatus) && fresh(isolateStatus)
    {
      embeddingLevel := new Level[MAX_DEPTH](_ => 0);
      overrideStatus := new Override[MAX_DEPTH](_ => NoOverride);
      isolateStatus := new bool[MAX_DEPTH](_ => false);
      depth := 0;
      entries := [];
    }

    method Push(level: Level, ovr: Override, isolate: bool)
      requires Valid()
      modifies this, embeddingLevel, overrideStatus, isolateStatus
      ensures Valid()
      ensures entries == PushEntry(MAX_DEPTH, old(entries), Entry(level, ovr, isolate))
    {
      if depth >= MAX_DEPTH {
        return;
      }
      embeddingLevel[depth] := level;
      overrideStatus[depth] := ovr;
      isolateStatus[depth] := isolate;
      depth := depth + 1;
      entries := entries + [Entry(level, ovr, isolate)];
    }

    method Pop()
      requires Valid()
      modifies this
      ensures Valid()
      ensures entries == PopEntry(old(entries))
    {
      if depth > 0 {
        depth := depth - 1;
        entries := entries[..depth];
      }
    }

    lemma DepthIsLength()
      requires Valid()
      ensures depth == |entries| <= MAX_DEPTH
    {
    }

    // The source indexes the arrays with `depth - 1`, which panics on an empty stack.
    function EmbeddingLevel(): (level: Level)
      requires Valid() && depth > 0
      reads this, embeddingLevel, overrideStatus, isolateStatus
      ensures level == TopEntry(entries).level
    {
      embeddingLevel[depth - 1]
    }

    function OverrideStatus(): (ovr: Override)
      requires Valid() && depth > 0
      reads this, embeddingLevel, overrideStatus, isolateStatus
      ensures ovr == TopEntry(entries).ovr
    {
      overrideStatus[depth - 1]
    }

    function IsolateStatus(): (isolate: bool)
      requires Valid() && depth > 0
      reads this, embeddingLevel, overrideStatus, isolateStatus
      ensures isolate == TopEntry(entries).isolate
    {
      isolateStatus[depth - 1]
    }
  }
}
