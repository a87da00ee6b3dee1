/** The phis without a variable that phi insertion puts at the head of every
    block: after promotion nothing but such phis uses them, so dead code
    elimination removes them all. */
module BlankPhis {
  import opened Cfg
  import opened Ir
  import opened Renaming
  import opened Promotion
  import opened Mem2Reg
  import opened Program
  import opened Liveness

  /** The phis without a variable. */
  ghost function Blanks(q: Proc): set<Value> {
    set v | v in q.defs && v.IsBlank()
  }

  /** Where a definition stands. */
  lemma Place(q: Proc, functions: nat, v: Value) returns (b: Block, i: nat)
    requires q.Ok(functions) && v in q.defs
    ensures b in q.code && i < |q.code[b]| && q.code[b][i] == q.defs[v] && q.defs[v].id == v
  {
    hide Proc.InstrOk;
    assert q.Placed(q.defs[v]);
    b :| b in q.code && q.defs[v] in q.code[b];
    i :| 0 <= i < |q.code[b]| && q.code[b][i] == q.defs[v];
  }

  /** In a module whose function q is the promoted f, no blank phi survives dead
      code elimination, in whatever block it is. */
  lemma BlanksAreDead(f: Function, p: Problem, q: Proc, functions: nat, isPure: map<nat, bool>)
    requires |f.g.blocks| > 0 && PromotedTo(f, q.code, p) && q.Ok(functions)
    ensures Blanks(q) <= Dead(q, isPure)
  {
    hide Problem.Analysed, Rewritten, Proc.Ok, PromotedTo, Problem.Valid;
    PromotedGives(f, q.code, p);
    forall v | v in Blanks(q) ensures !IsCritical(isPure, q.defs[v]) {
      var b, i := Place(q, functions, v);
      assert SettledInstr(p, q.code[b][i]);
    }
    forall v, op | v in q.defs && op in q.defs[v].operands && op in Blanks(q) ensures v in Blanks(q) {
      var b, i := Place(q, functions, v);
      assert SettledInstr(p, q.code[b][i]);
    }
    IslandDead(q, isPure, Blanks(q));
  }
}
