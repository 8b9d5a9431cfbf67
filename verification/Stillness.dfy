/** Chains on which the weak rules have nothing to do. */
module Stillness {
  import opened BidiTypes
  import opened Runs
  import opened Chains
  import opened Weak
  import opened Neutral
  import opened Passes
  import opened Resolution

  /** No rule of W1-W7 looks at these classes but as context. */
  predicate IsStill(bc: BidiClass) {
    bc == L || bc == R || bc == AN || bc == ON || IsRemovedClass(bc)
  }

  ghost predicate AllStill(cls: seq<BidiClass>) {
    forall k :: 0 <= k < |cls| ==> IsStill(cls[k])
  }

  lemma FirstWeakRulesRest(c: Ctx, cls: seq<BidiClass>)
    requires |cls| == |c.levels| && AllStill(cls)
    ensures W1(c, cls) == cls && W2(c, cls) == cls && W3(c, cls) == cls
  {
    hide LastBase, LastStrong;
  }

  lemma LastWeakRulesRest(c: Ctx, cls: seq<BidiClass>)
    requires |cls| == |c.levels| && AllStill(cls)
    ensures W4(c, cls) == cls && W5(c, cls) == cls && W6(c, cls) == cls && W7(c, cls) == cls
  {
    hide Between, TouchesEn, LastLetter;
  }

  lemma WeakRuleRests(stage: nat, c: Ctx, cls: seq<BidiClass>)
    requires 1 <= stage < BRACKET_STAGE && Sized(c, cls) && AllStill(cls)
    ensures Apply(RuleAt(stage), c, cls) == cls
  {
    FirstWeakRulesRest(c, cls);
    LastWeakRulesRest(c, cls);
    hide AllStill, W1, W2, W3, W4, W5, W6, W7;
  }

  lemma SizedChain(env: Env, seqs: seq<IsoSeq>, types: seq<BidiClass>, a: nat, cls: seq<BidiClass>)
    requires EnvSized(env, seqs, types) && a < |seqs| && |cls| == |seqs[a].indices|
    ensures Sized(CtxOf(env, seqs[a]), cls)
  {
  }

  /** W1-W7 leave such a chain as it is. */
  lemma {:induction false} WeakRulesRest(stage: nat, env: Env, seqs: seq<IsoSeq>, types: seq<BidiClass>, a: nat, cls: seq<BidiClass>)
    requires EnvSized(env, seqs, types) && a < |seqs| && stage < BRACKET_STAGE
    requires cls == After(0, env, seqs, types, a) && AllStill(cls)
    ensures After(stage, env, seqs, types, a) == cls
    decreases stage
  {
    assert stage < 10;
    hide *;
    if stage > 0 {
      WeakRulesRest(stage - 1, env, seqs, types, a, cls);
      StageRests(stage, env, seqs, types, a, cls);
    }
  }

  lemma StageRests(stage: nat, env: Env, seqs: seq<IsoSeq>, types: seq<BidiClass>, a: nat, cls: seq<BidiClass>)
    requires EnvSized(env, seqs, types) && a < |seqs| && 1 <= stage < BRACKET_STAGE
    requires cls == After(stage - 1, env, seqs, types, a) && AllStill(cls)
    ensures After(stage, env, seqs, types, a) == cls
  {
    SizedChain(env, seqs, types, a, cls);
    hide After, Apply, AllStill, CtxOf, Sized;
    WeakRuleRests(stage, CtxOf(env, seqs[a]), cls);
    AfterStep(stage, env, seqs, types, a);
  }

  ghost predicate NoNeutral(cls: seq<BidiClass>) {
    forall k :: 0 <= k < |cls| ==> IsStill(cls[k]) && !IsNeutral(cls[k])
  }

  lemma NeutralRulesRest(c: Ctx, cls: seq<BidiClass>)
    requires |cls| == |c.levels| && NoNeutral(cls)
    ensures N1(c, cls) == cls && N2(c, cls) == cls
  {
    hide PriorDirection, FollowingDirection;
  }

  lemma BracketRuleRests(env: Env, seqs: seq<IsoSeq>, types: seq<BidiClass>, a: nat)
    requires EnvSized(env, seqs, types) && a < |seqs| && env.paragraph == []
    ensures After(BRACKET_STAGE, env, seqs, types, a) == After(BRACKET_STAGE - 1, env, seqs, types, a)
  {
    BracketStep(env, seqs, types, a);
    hide After, EnvSized;
  }

  lemma NeutralStageRests(stage: nat, env: Env, seqs: seq<IsoSeq>, types: seq<BidiClass>, a: nat, cls: seq<BidiClass>)
    requires EnvSized(env, seqs, types) && a < |seqs| && BRACKET_STAGE < stage <= 10
    requires cls == After(stage - 1, env, seqs, types, a) && NoNeutral(cls)
    ensures After(stage, env, seqs, types, a) == cls
  {
    SizedChain(env, seqs, types, a, cls);
    NeutralRulesRest(CtxOf(env, seqs[a]), cls);
    hide After, NoNeutral, CtxOf, Sized, N1, N2;
    AfterStep(stage, env, seqs, types, a);
  }

  /** No rule changes letters and Arabic numbers. */
  lemma AllRulesRest(env: Env, seqs: seq<IsoSeq>, types: seq<BidiClass>, a: nat, stage: nat)
    requires EnvSized(env, seqs, types) && a < |seqs| && env.paragraph == [] && stage == BRACKET_STAGE
    requires NoNeutral(After(0, env, seqs, types, a))
    ensures After(stage + 2, env, seqs, types, a) == After(0, env, seqs, types, a)
  {
    assert AllStill(After(0, env, seqs, types, a));
    assert stage - 1 < BRACKET_STAGE < stage + 1;
    hide After, EnvSized, NoNeutral;
    var cls := After(0, env, seqs, types, a);
    WeakRulesRest(stage - 1, env, seqs, types, a, cls);
    BracketRuleRests(env, seqs, types, a);
    NeutralStageRests(stage + 1, env, seqs, types, a, cls);
    NeutralStageRests(stage + 2, env, seqs, types, a, cls);
  }
}
