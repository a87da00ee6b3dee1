/** Which instructions dead code elimination keeps, defined by chains of uses
    from the critical instructions. */
module Liveness {
  import opened Cfg
  import opened Ir
  import opened Program

  predicate IsCritical(isPure: map<nat, bool>, ins: Instr) {
    if ins.op.OpCall? then
      !(|ins.operands| > 0 && ins.operands[0].Func? && ins.operands[0].fid in isPure && isPure[ins.operands[0].fid])
    else ins.IsTerminator() || ins.op.OpStore?
  }

  /** From a critical instruction, each next one defines an operand of the one before. */
  ghost predicate UseChain(p: Proc, isPure: map<nat, bool>, chain: seq<Value>) {
    && |chain| > 0
    && (forall i :: 0 <= i < |chain| ==> chain[i] in p.defs)
    && IsCritical(isPure, p.defs[chain[0]])
    && (forall i :: 0 < i < |chain| ==> chain[i] in p.defs[chain[i - 1]].operands)
  }

  ghost predicate Needed(p: Proc, isPure: map<nat, bool>, v: Value) {
    exists chain :: UseChain(p, isPure, chain) && chain[|chain| - 1] == v
  }

  ghost function Dead(p: Proc, isPure: map<nat, bool>): set<Value> {
    set v | v in p.defs && !Needed(p, isPure, v)
  }

  lemma NeededCritical(p: Proc, isPure: map<nat, bool>, v: Value)
    requires v in p.defs && IsCritical(isPure, p.defs[v])
    ensures Needed(p, isPure, v)
  {
    assert UseChain(p, isPure, [v]);
  }

  lemma NeededOperand(p: Proc, isPure: map<nat, bool>, v: Value, op: Value)
    requires Needed(p, isPure, v) && v in p.defs && op in p.defs && op in p.defs[v].operands
    ensures Needed(p, isPure, op)
  {
    var chain :| UseChain(p, isPure, chain) && chain[|chain| - 1] == v;
    assert UseChain(p, isPure, chain + [op]);
  }

  /** A set holds the critical instructions and the definitions of its operands. */
  ghost predicate ClosedUnderUse(p: Proc, isPure: map<nat, bool>, s: set<Value>) {
    && (forall v :: v in p.defs && IsCritical(isPure, p.defs[v]) ==> v in s)
    && (forall v, op :: v in s && v in p.defs && op in p.defs && op in p.defs[v].operands ==> op in s)
  }

  /** The needed instructions are the least such set. */
  lemma {:induction false} NeededLeast(p: Proc, isPure: map<nat, bool>, s: set<Value>, chain: seq<Value>)
    requires ClosedUnderUse(p, isPure, s) && UseChain(p, isPure, chain)
    ensures chain[|chain| - 1] in s
    decreases |chain|
  {
    if |chain| > 1 {
      var front := chain[..|chain| - 1];
      NeededLeast(p, isPure, s, front);
      assert chain[|chain| - 1] in p.defs[front[|front| - 1]].operands;
    }
  }

  /** Instructions without effect that only one another use, like the phis without
      a variable that the promotion of cells adds to every block, are all dead. */
  lemma {:induction false} IslandDead(p: Proc, isPure: map<nat, bool>, island: set<Value>)
    requires forall v :: v in island ==> v in p.defs && !IsCritical(isPure, p.defs[v])
    requires forall v, op :: v in p.defs && op in p.defs[v].operands && op in island ==> v in island
    ensures island <= Dead(p, isPure)
  {
    var others := p.defs.Keys - island;
    forall v | v in island ensures !Needed(p, isPure, v) {
      if Needed(p, isPure, v) {
        var chain :| UseChain(p, isPure, chain) && chain[|chain| - 1] == v;
        NeededLeast(p, isPure, others, chain);
      }
    }
  }

  // ---------- lists without some instructions ----------

  function Without(list: seq<Instr>, del: set<Value>): (r: seq<Instr>)
    ensures forall ins :: ins in r ==> ins in list && ins.id !in del
  {
    if |list| == 0 then []
    else if list[0].id in del then Without(list[1..], del)
    else [list[0]] + Without(list[1..], del)
  }

  lemma {:induction false} WithoutKeeps(list: seq<Instr>, del: set<Value>, ins: Instr)
    requires ins in list && ins.id !in del
    ensures ins in Without(list, del)
  {
    if list[0] != ins {
      assert ins in list[1..];
      WithoutKeeps(list[1..], del, ins);
    }
  }

  lemma WithoutNil(del: set<Value>)
    ensures Without([], del) == []
  {
  }

  lemma WithoutCons(x: Instr, rest: seq<Instr>, del: set<Value>)
    ensures Without([x] + rest, del) == (if x.id in del then [] else [x]) + Without(rest, del)
  {
    assert ([x] + rest)[1..] == rest;
    assert [] + Without(rest, del) == Without(rest, del);
  }

  lemma {:induction false} WithoutConcat(a: seq<Instr>, b: seq<Instr>, del: set<Value>)
    ensures Without(a + b, del) == Without(a, del) + Without(b, del)
  {
    hide Without;
    if |a| == 0 {
      WithoutNil(del);
      assert a == [] && a + b == b;
    } else {
      var x, rest := a[0], a[1..];
      WithoutConcat(rest, b, del);
      WithoutCons(x, rest, del);
      WithoutCons(x, rest + b, del);
      assert a == [x] + rest && a + b == [x] + (rest + b);
    }
  }

  lemma {:induction false} WithoutAll(list: seq<Instr>, del: set<Value>)
    requires forall i :: 0 <= i < |list| ==> list[i].id !in del
    ensures Without(list, del) == list
  {
    if |list| > 0 { WithoutAll(list[1..], del); }
  }

  lemma {:induction false} WithoutTwice(list: seq<Instr>, a: set<Value>, b: set<Value>)
    ensures Without(Without(list, a), b) == Without(list, a + b)
  {
    if |list| > 0 {
      WithoutTwice(list[1..], a, b);
      if list[0].id !in a {
        assert Without(list, a)[1..] == Without(list[1..], a);
      }
    }
  }

  // ---------- the function after a sweep ----------

  function WithoutCode(code: map<Block, seq<Instr>>, del: set<Value>): (r: map<Block, seq<Instr>>)
    ensures r.Keys == code.Keys
  {
    map b | b in code :: Without(code[b], del)
  }

  ghost function Swept(p: Proc, isPure: map<nat, bool>): Proc {
    p.(code := WithoutCode(p.code, Dead(p, isPure)), defs := p.defs - Dead(p, isPure))
  }

  /** No instruction that stays uses one that goes. */
  lemma SurvivorsUseSurvivors(p: Proc, isPure: map<nat, bool>, functions: nat, b: Block, i: nat, k: nat)
    requires p.Ok(functions) && b in Swept(p, isPure).code && i < |Swept(p, isPure).code[b]|
    requires k < |Swept(p, isPure).code[b][i].operands|
    ensures Swept(p, isPure).code[b][i].operands[k] !in Dead(p, isPure)
  {
    KeptOperands(p, isPure, functions, b, Swept(p, isPure).code[b][i]);
  }

  lemma KeptOperands(p: Proc, isPure: map<nat, bool>, functions: nat, b: Block, ins: Instr)
    requires p.Ok(functions) && b in p.code && ins in p.code[b] && ins.id !in Dead(p, isPure)
    ensures p.InstrOk(functions, ins) && Needed(p, isPure, ins.id)
    ensures forall op :: op in ins.operands ==> op !in Dead(p, isPure)
  {
    hide Needed;
    var i :| 0 <= i < |p.code[b]| && p.code[b][i] == ins;
    assert p.InstrOk(functions, p.code[b][i]);
    forall op | op in ins.operands ensures op !in Dead(p, isPure) {
      if op in p.defs { NeededOperand(p, isPure, ins.id, op); }
    }
  }

  lemma SweptInstrOk(p: Proc, isPure: map<nat, bool>, functions: nat, b: Block, ins: Instr)
    requires p.Ok(functions) && b in p.code && ins in Swept(p, isPure).code[b]
    ensures Swept(p, isPure).InstrOk(functions, ins)
  {
    hide Needed, Dead, Without, Proc.Ok;
    assert ins in Without(p.code[b], Dead(p, isPure));
    KeptOperands(p, isPure, functions, b, ins);
  }

  lemma SweptPlaced(p: Proc, isPure: map<nat, bool>, functions: nat, v: Value)
    requires p.Ok(functions) && v in Swept(p, isPure).defs
    ensures v.IsInstruction() && Swept(p, isPure).defs[v].id == v && Swept(p, isPure).Placed(Swept(p, isPure).defs[v])
  {
    hide Needed, Dead, Proc.InstrOk;
    var ins := p.defs[v];
    assert p.Placed(ins);
    var b :| b in p.code && ins in p.code[b];
    WithoutKeeps(p.code[b], Dead(p, isPure), ins);
    assert ins in Swept(p, isPure).code[b];
  }

  lemma SweptShape(p: Proc, isPure: map<nat, bool>)
    ensures Swept(p, isPure).g == p.g && Swept(p, isPure).code.Keys == p.code.Keys
  {
  }

  lemma SweptOk(p: Proc, isPure: map<nat, bool>, functions: nat)
    requires p.Ok(functions)
    ensures Swept(p, isPure).Ok(functions)
  {
    hide Needed, Dead, Swept, Proc.InstrOk, Proc.Placed;
    var q := Swept(p, isPure);
    SweptShape(p, isPure);
    assert forall b :: b in q.code <==> b in p.code;
    forall b, i | b in q.code && 0 <= i < |q.code[b]| ensures q.InstrOk(functions, q.code[b][i]) {
      SweptInstrOk(p, isPure, functions, b, q.code[b][i]);
    }
    forall v | v in q.defs ensures v.IsInstruction() && q.defs[v].id == v && q.Placed(q.defs[v]) {
      SweptPlaced(p, isPure, functions, v);
    }
  }

  /** Sweeping again would find nothing: everything that stays is still needed. */
  lemma SweptHasNoDead(p: Proc, isPure: map<nat, bool>)
    ensures Dead(Swept(p, isPure), isPure) == {}
  {
    var q := Swept(p, isPure);
    forall v | v in q.defs ensures Needed(q, isPure, v) {
      var chain :| UseChain(p, isPure, chain) && chain[|chain| - 1] == v;
      forall i | 0 <= i < |chain| ensures chain[i] !in Dead(p, isPure) {
        assert UseChain(p, isPure, chain[..i + 1]);
        assert Needed(p, isPure, chain[i]);
      }
      assert UseChain(q, isPure, chain);
    }
  }

  lemma SweptNothing(p: Proc, isPure: map<nat, bool>)
    requires Dead(p, isPure) == {}
    ensures Swept(p, isPure) == p
  {
    forall b | b in p.code ensures Without(p.code[b], {}) == p.code[b] { WithoutAll(p.code[b], {}); }
    assert WithoutCode(p.code, {}) == p.code;
    assert p.defs - {} == p.defs;
  }

  lemma SweptTwice(p: Proc, isPure: map<nat, bool>)
    ensures Swept(Swept(p, isPure), isPure) == Swept(p, isPure)
  {
    SweptHasNoDead(p, isPure);
    SweptNothing(Swept(p, isPure), isPure);
  }
}
