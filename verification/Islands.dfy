/** What dead code elimination removes, said by opcodes: instructions that only
    compute a value, and whose values only such instructions use. */
module Islands {
  import opened Ir
  import opened Program
  import opened CallGraph
  import opened Liveness
  import FuncInfo

  /** No return, branch or store; a call only of a function that reaches no side effect. */
  ghost predicate OnlyComputes(pr: seq<Proc>, ins: Instr) {
    match ins.op
    case OpRet => false
    case OpBr => false
    case OpStore => false
    case OpCall =>
      && |ins.operands| > 0 && ins.operands[0].Func?
      && ins.operands[0].fid < |pr| && !CallsImpure(pr, ins.operands[0].fid)
    case _ => true
  }

  /** Instructions that only compute, used by one another at most. */
  ghost predicate Idle(pr: seq<Proc>, p: Proc, island: set<Value>) {
    && (forall v :: v in island ==> v in p.defs && OnlyComputes(pr, p.defs[v]))
    && (forall v, op :: v in p.defs && op in p.defs[v].operands && op in island ==> v in island)
  }

  lemma CriticalIff(pr: seq<Proc>, isPure: map<nat, bool>, ins: Instr)
    requires FuncInfo.ExactlyPure(pr, isPure)
    ensures IsCritical(isPure, ins) <==> !OnlyComputes(pr, ins)
  {
    hide CallsImpure;
  }

  lemma IdleIsDead(pr: seq<Proc>, isPure: map<nat, bool>, p: Proc, island: set<Value>)
    requires FuncInfo.ExactlyPure(pr, isPure) && Idle(pr, p, island)
    ensures island <= Dead(p, isPure)
  {
    hide CallsImpure, OnlyComputes, IsCritical, FuncInfo.ExactlyPure;
    forall v | v in island ensures !IsCritical(isPure, p.defs[v]) { CriticalIff(pr, isPure, p.defs[v]); }
    IslandDead(p, isPure, island);
  }

  lemma DeadIsIdle(pr: seq<Proc>, isPure: map<nat, bool>, p: Proc)
    requires FuncInfo.ExactlyPure(pr, isPure)
    ensures Idle(pr, p, Dead(p, isPure))
  {
    hide CallsImpure, OnlyComputes, IsCritical, FuncInfo.ExactlyPure, Needed;
    forall v | v in Dead(p, isPure) ensures OnlyComputes(pr, p.defs[v]) {
      CriticalIff(pr, isPure, p.defs[v]);
      if IsCritical(isPure, p.defs[v]) { NeededCritical(p, isPure, v); }
    }
    forall v, op | v in p.defs && op in p.defs[v].operands && op in Dead(p, isPure)
      ensures v in Dead(p, isPure)
    {
      if Needed(p, isPure, v) { NeededOperand(p, isPure, v, op); }
    }
  }

  /** An instruction is dead exactly when it belongs to such an island. */
  lemma DeadIff(pr: seq<Proc>, isPure: map<nat, bool>, p: Proc, v: Value)
    requires FuncInfo.ExactlyPure(pr, isPure)
    ensures v in Dead(p, isPure) <==> exists island :: Idle(pr, p, island) && v in island
  {
    hide Dead, Idle, FuncInfo.ExactlyPure;
    DeadIsIdle(pr, isPure, p);
    if island :| Idle(pr, p, island) && v in island { IdleIsDead(pr, isPure, p, island); }
  }

  /** In a function of the swept module no such island is left. */
  lemma NothingIdle(pr: seq<Proc>, isPure: map<nat, bool>, p: Proc, island: set<Value>)
    requires FuncInfo.ExactlyPure(pr, isPure) && Idle(pr, Swept(p, isPure), island)
    ensures island == {}
  {
    IdleIsDead(pr, isPure, Swept(p, isPure), island);
    SweptHasNoDead(p, isPure);
  }

  /** Every function lost exactly its islands, and none is left. */
  ghost predicate IslandsGone(before: seq<Proc>, after: seq<Proc>) {
    && |after| == |before|
    && (forall f, v :: 0 <= f < |before| && v in before[f].defs ==>
          (v !in after[f].defs <==> InIsland(before, before[f], v)))
    && (forall f, island :: 0 <= f < |after| && Idle(before, after[f], island) ==> island == {})
  }

  ghost predicate InIsland(pr: seq<Proc>, p: Proc, v: Value) {
    exists island :: Idle(pr, p, island) && v in island
  }

  lemma SweptIslands(pr: seq<Proc>, isPure: map<nat, bool>, swept: seq<Proc>)
    requires FuncInfo.ExactlyPure(pr, isPure) && |swept| == |pr|
    requires forall f :: 0 <= f < |pr| ==> swept[f] == Swept(pr[f], isPure)
    ensures IslandsGone(pr, swept)
  {
    hide Idle, FuncInfo.ExactlyPure, Swept, Dead;
    forall f, v | 0 <= f < |pr| && v in pr[f].defs
      ensures v !in swept[f].defs <==> InIsland(pr, pr[f], v)
    {
      DeadIff(pr, isPure, pr[f], v);
      SweptDefs(pr[f], isPure);
    }
    forall f, island | 0 <= f < |swept| && Idle(pr, swept[f], island) ensures island == {} {
      NothingIdle(pr, isPure, pr[f], island);
    }
  }

  lemma SweptDefs(p: Proc, isPure: map<nat, bool>)
    ensures Swept(p, isPure).defs == p.defs - Dead(p, isPure)
  {
  }
}
