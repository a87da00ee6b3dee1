/** The rewritten function and the proof that it behaves like the original:
    a lockstep simulation, block by block, for every amount of fuel. */
module Promotion {
  import opened Cfg
  import opened Ir
  import opened Exec
  import opened Renaming

  // ---------- the rewritten function ----------

  /** The instructions that survive promotion. */
  function Keep(list: seq<Instr>): seq<Instr> {
    if |list| == 0 then []
    else (if list[0].IsCellAccess() then [] else [list[0]]) + Keep(list[1..])
  }

  /** Block b after renaming, without its phis. */
  ghost function NewRest(p: Problem, b: Block): seq<Instr>
    requires p.Analysed() && b in p.f.g.blocks && Reachable(p.f.g, b)
  {
    SubList(End(p, b).sub, Keep(p.f.code[b]))
  }

  /** What variable v is worth on the edge from q. */
  ghost function Incoming(p: Problem, v: Value, q: Block): Option<Value>
    requires p.Analysed() && q in p.f.g.blocks && Reachable(p.f.g, q)
  {
    if v in End(p, q).env then Some(End(p, q).env[v]) else None
  }

  /** A phi at the head of b: blank, or placed for its variable and fed from
      every reachable predecessor with the value defined there. */
  ghost predicate PhiOk(p: Problem, b: Block, phi: Instr)
    requires p.Analysed() && b in p.f.g.blocks
  {
    && phi.IsPhi() && phi.id.Phi? && phi.id.at == b
    && (phi.id.of != Null ==>
          phi.id.of in p.phiVars[b]
          && (forall o :: o in phi.operands ==> !o.IsBlank())
          && forall q :: q in p.f.g.pre[b] && q in p.f.g.blocks && Reachable(p.f.g, q) ==>
               PhiSource(phi.operands, q) == Incoming(p, phi.id.of, q))
  }

  ghost predicate DistinctIds(list: seq<Instr>) {
    forall i, j :: 0 <= i < j < |list| ==> list[i].id != list[j].id
  }

  /** The phis of b are those placed for b, once each, and possibly blank ones. */
  ghost predicate PhisOk(p: Problem, b: Block, phis: seq<Instr>)
    requires p.Analysed() && b in p.f.g.blocks
  {
    && DistinctIds(phis)
    && (forall i :: 0 <= i < |phis| ==> PhiOk(p, b, phis[i]))
    && (forall v :: v in p.phiVars[b] ==> exists i :: 0 <= i < |phis| && phis[i].id == Phi(v, b))
  }

  /** code is the function after promotion, as far as reachable blocks go. */
  ghost predicate Rewritten(p: Problem, code: map<Block, seq<Instr>>)
    requires p.Analysed()
  {
    forall b :: b in p.f.g.blocks && Reachable(p.f.g, b) ==>
      && b in code
      && PhisOk(p, b, code[b][..PhiCount(code[b])])
      && code[b][PhiCount(code[b])..] == NewRest(p, b)
  }

  // ---------- the simulation relation ----------

  ghost predicate RegsMatch<V, W>(p: Problem, sem: Sem<V, W>, b: Block, i: int, sub: map<Value, Value>,
          regs: map<Value, V>, regs': map<Value, V>)
    requires p.Analysed()
  {
    forall x {:trigger InScope(p.f, b, i, x)} :: InScope(p.f, b, i, x) ==>
      Eval(sem, regs, x).Some? && Eval(sem, regs, x) == Eval(sem, regs', Sub(sub, x))
  }

  /** Every variable with a definition has in its cell the value of that
      definition; a multiply stored variable without one has an empty cell. */
  ghost predicate CellsMatch<V, W>(p: Problem, sem: Sem<V, W>, env: map<Value, Value>, cells: map<Value, V>,
          regs': map<Value, V>)
  {
    && (forall v :: v in env ==> Get(cells, v) == Eval(sem, regs', env[v]))
    && (forall v :: v in p.multi && v !in env ==> v !in cells)
  }

  /** Every variable stored on the way to (b, i) has a value. */
  ghost predicate CellsFilled<V>(p: Problem, b: Block, i: int, q: seq<Block>, cells: map<Value, V>)
    requires b in p.f.code && i <= |p.f.code[b]| && |q| > 0
  {
    forall v :: StoredOnPath(p.f, q[..|q| - 1], v) || StoresBefore(p.f, b, i, v) ==> v in cells
  }

  /** q is the path taken to b; st runs the original, st' the rewritten function. */
  ghost predicate Rel<V, W>(p: Problem, sem: Sem<V, W>, b: Block, i: int, q: seq<Block>, st: State<V, W>,
          st': State<V, W>)
  {
    && p.Valid() && b in p.f.g.blocks && Reachable(p.f.g, b) && 0 <= i <= |p.f.code[b]|
    && PathTo(p.f.g, q, b)
    && st.world == st'.world
    && RegsMatch(p, sem, b, i, At(p, b, i).sub, st.regs, st'.regs)
    && CellsMatch(p, sem, At(p, b, i).env, st.cells, st'.regs)
    && CellsFilled(p, b, i, q, st.cells)
  }

  // ---------- one instruction ----------

  lemma ScopeNext(p: Problem, b: Block, i: int, x: Value)
    requires p.Analysed() && b in p.f.code && 0 <= i < |p.f.code[b]| && InScope(p.f, b, i + 1, x)
    ensures InScope(p.f, b, i, x) || (x == p.f.code[b][i].id && p.f.code[b][i].Defines())
  {
    if x.IsInstruction() {
      var c, j :| DefinedAt(p.f, x, c, j) && Before(p.f.g, c, j, b, i + 1);
      assert Before(p.f.g, c, j, b, i) || (c == b && j == i);
    }
  }

  /** The instruction at (b, i) is not in scope at itself, nor among the stable values. */
  lemma NotYetDefined(p: Problem, b: Block, i: int)
    requires p.Valid() && b in p.f.code && 0 <= i < |p.f.code[b]|
    ensures !InScope(p.f, b, i, p.f.code[b][i].id) && !Stable(p, b, i, p.f.code[b][i].id)
    ensures !LoadBefore(p, b, i, p.f.code[b][i].id)
  {
  }

  lemma {:induction false} EvalAllMatch<V, W>(sem: Sem<V, W>, regs: map<Value, V>, vs: seq<Value>, regs': map<Value, V>,
          vs': seq<Value>)
    requires |vs| == |vs'|
    requires forall k :: 0 <= k < |vs| ==> Eval(sem, regs, vs[k]) == Eval(sem, regs', vs'[k])
    ensures EvalAll(sem, regs, vs) == EvalAll(sem, regs', vs')
  {
    if |vs| > 0 {
      assert Eval(sem, regs, vs[0]) == Eval(sem, regs', vs'[0]);
      EvalAllMatch(sem, regs, vs[1..], regs', vs'[1..]);
    }
  }

  lemma OperandsMatch<V, W>(p: Problem, sem: Sem<V, W>, b: Block, i: int, regs: map<Value, V>, regs': map<Value, V>)
    requires p.Valid() && b in p.f.g.blocks && Reachable(p.f.g, b) && 0 <= i < |p.f.code[b]|
    requires RegsMatch(p, sem, b, i, At(p, b, i).sub, regs, regs')
    ensures forall k :: 0 <= k < |p.f.code[b][i].operands| ==>
              Eval(sem, regs, p.f.code[b][i].operands[k]).Some? &&
              Eval(sem, regs, p.f.code[b][i].operands[k])
              == Eval(sem, regs', SubOperands(End(p, b).sub, p.f.code[b][i].operands)[k])
  {
    var ops := p.f.code[b][i].operands;
    forall k | 0 <= k < |ops|
      ensures Eval(sem, regs, ops[k]).Some?
          && Eval(sem, regs, ops[k]) == Eval(sem, regs', SubOperands(End(p, b).sub, ops)[k])
    {
      assert ops[k] in ops;
      assert InScope(p.f, b, i, ops[k]);
      SubSettled(p, b, i, ops[k]);
    }
  }

  /** What is in scope at (b, i) does not depend on the register defined there. */
  lemma UntouchedByDefine(p: Problem, b: Block, i: int, x: Value)
    requires p.Valid() && b in p.f.g.blocks && Reachable(p.f.g, b) && 0 <= i < |p.f.code[b]|
    requires InScope(p.f, b, i, x)
    ensures x != p.f.code[b][i].id && Sub(At(p, b, i).sub, x) != p.f.code[b][i].id
  {
    StateOkAt(p, b, i);
    NotYetDefined(p, b, i);
    OperandStable(p, b, i, At(p, b, i), x);
  }

  /** A register written by the instruction at (b, i) matches, and disturbs no other match. */
  lemma EvalSet<V, W>(sem: Sem<V, W>, regs: map<Value, V>, id: Value, r: V, x: Value)
    ensures x != id ==> Eval(sem, regs[id := r], x) == Eval(sem, regs, x)
    ensures id.IsInstruction() ==> Eval(sem, regs[id := r], id) == Some(r)
    ensures !id.IsInstruction() ==> Eval(sem, regs[id := r], id) == Some(sem.constOf(id))
  {
  }

  lemma RegsMatchDefine<V, W>(p: Problem, sem: Sem<V, W>, b: Block, i: int, regs: map<Value, V>, regs': map<Value, V>,
          r: V)
    requires p.Valid() && b in p.f.g.blocks && Reachable(p.f.g, b) && 0 <= i < |p.f.code[b]|
    requires p.f.code[b][i].id !in At(p, b, i).sub
    requires RegsMatch(p, sem, b, i, At(p, b, i).sub, regs, regs')
    ensures RegsMatch(p, sem, b, i + 1, At(p, b, i).sub, regs[p.f.code[b][i].id := r], regs'[p.f.code[b][i].id := r])
  {
    hide Reachable, Problem.Valid, Problem.Analysed, InScope, StateOk, At, Eval;
    ProblemFacts(p, b);
    var id, k := p.f.code[b][i].id, i + 1;
    var rs := At(p, b, i);
    EvalSet(sem, regs, id, r, id);
    EvalSet(sem, regs', id, r, id);
    forall x | InScope(p.f, b, k, x)
      ensures Eval(sem, regs[id := r], x).Some?
      ensures Eval(sem, regs[id := r], x) == Eval(sem, regs'[id := r], Sub(rs.sub, x))
    {
      ScopeNext(p, b, i, x);
      if x != id {
        UntouchedByDefine(p, b, i, x);
        EvalSet(sem, regs, id, r, x);
        EvalSet(sem, regs', id, r, Sub(rs.sub, x));
      }
    }
  }

  lemma RegsMatchSkip<V, W>(p: Problem, sem: Sem<V, W>, b: Block, i: int, sub: map<Value, Value>, regs: map<Value, V>,
          regs': map<Value, V>)
    requires p.Analysed() && b in p.f.code && 0 <= i < |p.f.code[b]| && !p.f.code[b][i].Defines()
    requires RegsMatch(p, sem, b, i, sub, regs, regs')
    ensures RegsMatch(p, sem, b, i + 1, sub, regs, regs')
  {
    forall x | InScope(p.f, b, i + 1, x)
      ensures Eval(sem, regs, x).Some? && Eval(sem, regs, x) == Eval(sem, regs', Sub(sub, x))
    {
      ScopeNext(p, b, i, x);
      assert InScope(p.f, b, i, x);
    }
  }

  /** A promoted load reads the value its replacement has. */
  lemma RegsMatchLoad<V, W>(p: Problem, sem: Sem<V, W>, b: Block, i: int, sub: map<Value, Value>, o: Value,
                         regs: map<Value, V>, regs': map<Value, V>, v: V)
    requires p.Valid() && b in p.f.g.blocks && Reachable(p.f.g, b) && 0 <= i < |p.f.code[b]|
    requires RegsMatch(p, sem, b, i, sub, regs, regs') && Eval(sem, regs', o) == Some(v)
    ensures RegsMatch(p, sem, b, i + 1, sub[p.f.code[b][i].id := o], regs[p.f.code[b][i].id := v], regs')
  {
    NotYetDefined(p, b, i);
    assert p.Analysed() && p.f.g.Valid();
    var id, k := p.f.code[b][i].id, i + 1;
    hide Problem.Valid, Problem.Analysed, InScope, StateOk, Stable, LoadBefore, Reachable, Graph.Valid, DefinedAt;
    forall x | InScope(p.f, b, k, x)
      ensures Eval(sem, regs[id := v], x).Some?
      ensures Eval(sem, regs[id := v], x) == Eval(sem, regs', Sub(sub[id := o], x))
    {
      ScopeNext(p, b, i, x);
    }
  }

  lemma CellsMatchDefine<V, W>(p: Problem, sem: Sem<V, W>, b: Block, i: int, cells: map<Value, V>, regs': map<Value, V>,
          r: V)
    requires p.Valid() && b in p.f.g.blocks && Reachable(p.f.g, b) && 0 <= i < |p.f.code[b]|
    requires StateOk(p, b, i, At(p, b, i)) && CellsMatch(p, sem, At(p, b, i).env, cells, regs')
    ensures CellsMatch(p, sem, At(p, b, i).env, cells, regs'[p.f.code[b][i].id := r])
  {
    NewNotStored(p, b, i);
    hide Problem.Valid, Problem.Analysed, Reachable, StateOk, At;
  }

  /** No variable has the instruction at (b, i) as its definition yet. */
  lemma NewNotStored(p: Problem, b: Block, i: int)
    requires p.Valid() && b in p.f.g.blocks && Reachable(p.f.g, b) && b in p.f.code && 0 <= i < |p.f.code[b]|
    requires StateOk(p, b, i, At(p, b, i))
    ensures forall v :: v in At(p, b, i).env ==> At(p, b, i).env[v] != p.f.code[b][i].id
  {
    hide Problem.Valid, Problem.Analysed, Reachable, At, Stable;
    ProblemFacts(p, b);
    NotYetDefined(p, b, i);
  }

  lemma CellsFilledNext<V>(p: Problem, b: Block, i: int, q: seq<Block>, cells: map<Value, V>, cells': map<Value, V>)
    requires b in p.f.code && 0 <= i < |p.f.code[b]| && |q| > 0 && CellsFilled(p, b, i, q, cells)
    requires forall v :: v in cells ==> v in cells'
    requires p.f.code[b][i].IsCellStore() ==> p.f.code[b][i].operands[1] in cells'
    ensures CellsFilled(p, b, i + 1, q, cells')
  {
    forall v | StoredOnPath(p.f, q[..|q| - 1], v) || StoresBefore(p.f, b, i + 1, v)
      ensures v in cells'
    {
      if !StoredOnPath(p.f, q[..|q| - 1], v) {
        var j :| 0 <= j < i + 1 && p.f.code[b][j].IsCellStore() && p.f.code[b][j].operands[1] == v;
        if j < i {
          assert StoresBefore(p.f, b, i, v);
        }
      }
    }
  }

  /** A promoted load: the original fills a register, the rewritten function does
      nothing. With definite assignment the cell is never empty. */
  lemma StepLoad<V, W>(p: Problem, sem: Sem<V, W>, b: Block, i: int, q: seq<Block>, st: State<V, W>, st': State<V, W>)
    requires Rel(p, sem, b, i, q, st, st') && i < |p.f.code[b]| && p.f.code[b][i].IsCellLoad()
    ensures DefinitelyAssigned(p.f) ==> Step(sem, p.f.code[b][i], st).Some?
    ensures Step(sem, p.f.code[b][i], st).Some? ==> Rel(p, sem, b, i + 1, q, Step(sem, p.f.code[b][i], st).value, st')
  {
    var v := p.f.code[b][i].operands[0];
    LoadsCovered(p, b, i);
    if DefinitelyAssigned(p.f) {
      assert StoredOnPath(p.f, q[..|q| - 1], v) || StoresBefore(p.f, b, i, v);
    }
    if v in st.cells {
      hide InScope, CellsMatch, CellsFilled, RegsMatch, DefinitelyAssigned, LoadsDefined;
      CellsMatchAt(p, sem, At(p, b, i).env, st.cells, st'.regs, v);
      RegsMatchLoad(p, sem, b, i, At(p, b, i).sub, At(p, b, i).env[v], st.regs, st'.regs, st.cells[v]);
      CellsFilledNext(p, b, i, q, st.cells, st.cells);
    }
  }

  lemma CellsMatchAt<V, W>(p: Problem, sem: Sem<V, W>, env: map<Value, Value>, cells: map<Value, V>,
          regs': map<Value, V>, v: Value)
    requires CellsMatch(p, sem, env, cells, regs') && v in env
    ensures Get(cells, v) == Eval(sem, regs', env[v])
  {
  }

  lemma CellsMatchStore<V, W>(p: Problem, sem: Sem<V, W>, env: map<Value, Value>, cells: map<Value, V>,
          regs': map<Value, V>, v: Value, o: Value, x: V)
    requires CellsMatch(p, sem, env, cells, regs') && Eval(sem, regs', o) == Some(x)
    ensures CellsMatch(p, sem, env[v := o], cells[v := x], regs')
  {
  }

  /** A promoted store: the original fills a cell, the rewritten function does nothing. */
  lemma StepStore<V, W>(p: Problem, sem: Sem<V, W>, b: Block, i: int, q: seq<Block>, st: State<V, W>, st': State<V, W>)
    requires Rel(p, sem, b, i, q, st, st') && i < |p.f.code[b]| && p.f.code[b][i].IsCellStore()
    ensures Step(sem, p.f.code[b][i], st).Some?
    ensures Rel(p, sem, b, i + 1, q, Step(sem, p.f.code[b][i], st).value, st')
  {
    var ins := p.f.code[b][i];
    assert ins.operands[0] in ins.operands;
    assert InScope(p.f, b, i, ins.operands[0]);
    var x := Eval(sem, st.regs, ins.operands[0]).value;
    assert Eval(sem, st'.regs, Sub(At(p, b, i).sub, ins.operands[0])) == Some(x);
    hide InScope, CellsMatch, CellsFilled, RegsMatch;
    CellsMatchStore(p, sem, At(p, b, i).env, st.cells, st'.regs, ins.operands[1],
        Sub(At(p, b, i).sub, ins.operands[0]), x);
    RegsMatchSkip(p, sem, b, i, At(p, b, i).sub, st.regs, st'.regs);
    CellsFilledNext(p, b, i, q, st.cells, st.cells[ins.operands[1] := x]);
  }

  lemma NotReplacedYet(p: Problem, b: Block, i: int)
    requires p.Valid() && b in p.f.g.blocks && Reachable(p.f.g, b) && 0 <= i < |p.f.code[b]|
    ensures p.f.code[b][i].id !in At(p, b, i).sub
  {
    StateOkAt(p, b, i);
    NotYetDefined(p, b, i);
  }

  /** Substitution turns no instruction into an access to a cell. */
  lemma StillNoCellAccess(p: Problem, b: Block, i: int)
    requires p.Valid() && b in p.f.g.blocks && Reachable(p.f.g, b) && 0 <= i < |p.f.code[b]|
    requires !p.f.code[b][i].IsCellAccess()
    ensures !SubInstr(End(p, b).sub, p.f.code[b][i]).IsCellAccess()
  {
    var ins := p.f.code[b][i];
    var n := |p.f.code[b]|;
    if ins.op.OpLoad? {
      assert ins.operands[0] in ins.operands;
      assert InScope(p.f, b, i, ins.operands[0]);
      SubSettled(p, b, i, ins.operands[0]);
      StateOkAt(p, b, i);
      OperandStable(p, b, i, At(p, b, i), ins.operands[0]);
    } else if ins.op.OpStore? {
      StateOkAt(p, b, n);
      assert ins.operands[1] !in End(p, b).sub;
    }
  }

  /** Any other instruction runs identically on both sides. */
  lemma StepOther<V, W>(p: Problem, sem: Sem<V, W>, b: Block, i: int, q: seq<Block>, st: State<V, W>, st': State<V, W>)
    requires Rel(p, sem, b, i, q, st, st') && i < |p.f.code[b]|
    requires !p.f.code[b][i].IsCellAccess() && !p.f.code[b][i].IsTerminator()
    ensures Step(sem, p.f.code[b][i], st).Some? <==> Step(sem, SubInstr(End(p, b).sub, p.f.code[b][i]), st').Some?
    ensures Step(sem, p.f.code[b][i], st).Some? ==>
              Rel(p, sem, b, i + 1, q, Step(sem, p.f.code[b][i], st).value,
                  Step(sem, SubInstr(End(p, b).sub, p.f.code[b][i]), st').value)
  {
    hide Reachable;
    var ins := p.f.code[b][i];
    var sub := End(p, b).sub;
    hide InScope, CellsMatch, CellsFilled, RegsMatch, StateOk, Problem.Analysed, WellFormed, LoadsDefined,
        Problem.PhisPlaced;
    StillNoCellAccess(p, b, i);
    OperandsMatch(p, sem, b, i, st.regs, st'.regs);
    EvalAllMatch(sem, st.regs, ins.operands, st'.regs, SubOperands(sub, ins.operands));
    var xs := EvalAll(sem, st.regs, ins.operands);
    if xs.Some? {
      var r := sem.step(ins.op, ins.id, xs.value, st.world);
      if r.Some? {
        CellsFilledNext(p, b, i, q, st.cells, st.cells);
        OtherMatches(p, sem, b, i, st, st', r.value.0);
      }
    }
  }

  /** Registers and cells after an instruction that touches no cell. */
  lemma OtherMatches<V, W>(p: Problem, sem: Sem<V, W>, b: Block, i: int, st: State<V, W>, st': State<V, W>, r: V)
    requires p.Valid() && b in p.f.g.blocks && Reachable(p.f.g, b) && 0 <= i < |p.f.code[b]|
    requires !p.f.code[b][i].IsCellAccess() && !p.f.code[b][i].IsTerminator()
    requires RegsMatch(p, sem, b, i, At(p, b, i).sub, st.regs, st'.regs)
    requires CellsMatch(p, sem, At(p, b, i).env, st.cells, st'.regs)
    ensures var ins := p.f.code[b][i];
      var regs := if ins.Defines() then st.regs[ins.id := r] else st.regs;
      var regs' := if ins.Defines() then st'.regs[ins.id := r] else st'.regs;
      RegsMatch(p, sem, b, i + 1, At(p, b, i).sub, regs, regs') && CellsMatch(p, sem, At(p, b, i).env, st.cells, regs')
  {
    hide Reachable, InScope, CellsMatch, RegsMatch, StateOk, Problem.Analysed, Problem.Valid, At;
    ProblemFacts(p, b);
    StateOkAt(p, b, i);
    if p.f.code[b][i].Defines() {
      NotReplacedYet(p, b, i);
      RegsMatchDefine(p, sem, b, i, st.regs, st'.regs, r);
      CellsMatchDefine(p, sem, b, i, st.cells, st'.regs, r);
    } else {
      RegsMatchSkip(p, sem, b, i, At(p, b, i).sub, st.regs, st'.regs);
    }
  }

  // ---------- the instructions of one block ----------

  lemma KeepCons(list: seq<Instr>, i: int, n: int)
    requires 0 <= i < n <= |list|
    ensures Keep(list[i..n]) == (if list[i].IsCellAccess() then [] else [list[i]]) + Keep(list[i + 1..n])
  {
    assert list[i..n][1..] == list[i + 1..n];
  }

  lemma SubListCons(sub: map<Value, Value>, x: Instr, list: seq<Instr>)
    ensures SubList(sub, [x] + list) == [SubInstr(sub, x)] + SubList(sub, list)
  {
  }

  /** From position i up to the terminator of b, in lockstep. */
  lemma {:induction false} SimSteps<V, W>(p: Problem, sem: Sem<V, W>, b: Block, i: int, q: seq<Block>, st: State<V, W>,
          st': State<V, W>)
    requires p.Valid() && b in p.f.g.blocks && Reachable(p.f.g, b) && 0 <= i < |p.f.code[b]|
    requires Rel(p, sem, b, i, q, st, st')
    ensures var n := |p.f.code[b]| - 1;
            var r, r' := Steps(sem, p.f.code[b][i..n], st),
                Steps(sem, SubList(End(p, b).sub, Keep(p.f.code[b][i..n])), st');
            && (r.Some? ==> r'.Some? && Rel(p, sem, b, n, q, r.value, r'.value))
            && (DefinitelyAssigned(p.f) && r'.Some? ==> r.Some?)
    decreases |p.f.code[b]| - i
  {
    hide *;
    BlockFacts(p, b);
    var list, sub := p.f.code[b], End(p, b).sub;
    var n := |list| - 1;
    if i < n {
      var ins := list[i];
      KeepCons(list, i, n);
      StepsCons(sem, list, i, n, st);
      if ins.IsCellAccess() {
        SimCellAccess(p, sem, b, i, q, st, st');
        if Step(sem, ins, st).Some? { SimSteps(p, sem, b, i + 1, q, Step(sem, ins, st).value, st'); }
        assert Keep(list[i..n]) == Keep(list[i + 1..n]);
      } else {
        StepOther(p, sem, b, i, q, st, st');
        SubListCons(sub, ins, Keep(list[i + 1..n]));
        StepsHead(sem, SubInstr(sub, ins), SubList(sub, Keep(list[i + 1..n])), st');
        if Step(sem, ins, st).Some? {
          SimSteps(p, sem, b, i + 1, q, Step(sem, ins, st).value, Step(sem, SubInstr(sub, ins), st').value);
        }
      }
    } else {
      assert list[i..n] == [];
      NothingToDo(sem, sub, st);
      NothingToDo(sem, sub, st');
    }
  }

  lemma NothingToDo<V, W>(sem: Sem<V, W>, sub: map<Value, Value>, st: State<V, W>)
    ensures Steps(sem, [], st) == Some(st) && SubList(sub, Keep([])) == []
  {
  }

  lemma BlockFacts(p: Problem, b: Block)
    requires p.Valid() && b in p.f.g.blocks && Reachable(p.f.g, b)
    ensures p.Analysed() && p.f.g.Valid() && b in p.f.code && |p.f.code[b]| > 0
    ensures forall i :: 0 <= i < |p.f.code[b]| ==> !p.f.code[b][i].IsPhi() && p.f.code[b][i].Shaped()
    ensures forall i :: 0 <= i < |p.f.code[b]| ==> (p.f.code[b][i].IsTerminator() <==> i == |p.f.code[b]| - 1)
    ensures forall s :: s in Targets(p.f.code[b][|p.f.code[b]| - 1]) <==> s in p.f.g.succ[b]
  {
  }

  lemma RelFacts<V, W>(p: Problem, sem: Sem<V, W>, b: Block, i: int, q: seq<Block>, st: State<V, W>, st': State<V, W>)
    requires Rel(p, sem, b, i, q, st, st')
    ensures p.Valid() && b in p.f.g.blocks && Reachable(p.f.g, b) && p.Analysed() && b in p.f.code
    ensures 0 <= i <= |p.f.code[b]| && PathTo(p.f.g, q, b) && st.world == st'.world
  {
  }

  lemma SimCellAccess<V, W>(p: Problem, sem: Sem<V, W>, b: Block, i: int, q: seq<Block>, st: State<V, W>,
          st': State<V, W>)
    requires Rel(p, sem, b, i, q, st, st') && i < |p.f.code[b]| && p.f.code[b][i].IsCellAccess()
    ensures DefinitelyAssigned(p.f) ==> Step(sem, p.f.code[b][i], st).Some?
    ensures Step(sem, p.f.code[b][i], st).Some? ==> Rel(p, sem, b, i + 1, q, Step(sem, p.f.code[b][i], st).value, st')
  {
    hide *;
    RelFacts(p, sem, b, i, q, st, st');
    CellAccessKinds(p.f.code[b][i]);
    if p.f.code[b][i].IsCellLoad() {
      StepLoad(p, sem, b, i, q, st, st');
    } else {
      StepStore(p, sem, b, i, q, st, st');
    }
  }

  lemma CellAccessKinds(ins: Instr)
    requires ins.IsCellAccess()
    ensures ins.IsCellLoad() || ins.IsCellStore()
  {
  }

  lemma StepsHead<V, W>(sem: Sem<V, W>, x: Instr, list: seq<Instr>, st: State<V, W>)
    ensures Steps(sem, [x] + list, st) ==
            if Step(sem, x, st).Some? then Steps(sem, list, Step(sem, x, st).value) else None
  {
    assert ([x] + list)[1..] == list;
  }

  lemma StepsCons<V, W>(sem: Sem<V, W>, list: seq<Instr>, i: int, n: int, st: State<V, W>)
    requires 0 <= i < n <= |list|
    ensures Steps(sem, list[i..n], st) ==
            if Step(sem, list[i], st).Some? then Steps(sem, list[i + 1..n], Step(sem, list[i], st).value) else None
  {
    assert list[i..n][1..] == list[i + 1..n];
  }

  // ---------- phis and the step to the next block ----------

  ghost predicate NotAmong(phis: seq<Instr>, y: Value) {
    forall k :: 0 <= k < |phis| ==> phis[k].id != y
  }

  lemma {:induction false} EnterPhisSets<V, W>(sem: Sem<V, W>, phis: seq<Instr>, from: Block, before: map<Value, V>,
          regs: map<Value, V>)
    requires DistinctIds(phis)
    ensures var r := EnterPhis(sem, phis, from, before, regs);
            && (forall k :: 0 <= k < |phis| ==> Get(r, phis[k].id) == PhiValue(sem, before, phis[k], from))
            && (forall y {:trigger Get(r, y)} :: NotAmong(phis, y) ==> Get(r, y) == Get(regs, y))
  {
    if |phis| > 0 {
      var regs1 := SetReg(regs, phis[0].id, PhiValue(sem, before, phis[0], from));
      EnterPhisSets(sem, phis[1..], from, before, regs1);
      var r := EnterPhis(sem, phis, from, before, regs);
      var r1 := EnterPhis(sem, phis[1..], from, before, regs1);
      assert r == r1;
      forall k | 0 <= k < |phis|
        ensures Get(r, phis[k].id) == PhiValue(sem, before, phis[k], from)
      {
        if k > 0 {
          assert phis[1..][k - 1] == phis[k];
        } else {
          assert NotAmong(phis[1..], phis[0].id);
          assert Get(r1, phis[0].id) == Get(regs1, phis[0].id);
        }
      }
      forall y | NotAmong(phis, y)
        ensures Get(r, y) == Get(regs, y)
      {
        assert phis[0].id != y;
        assert NotAmong(phis[1..], y);
        assert Get(r1, y) == Get(regs1, y);
      }
    }
  }

  /** The registers after the phis of s, entered from b. */
  ghost predicate Entered<V, W>(p: Problem, sem: Sem<V, W>, s: Block, b: Block, regs: map<Value, V>,
          regs': map<Value, V>)
    requires p.Analysed() && s in p.f.g.blocks && b in p.f.g.blocks && Reachable(p.f.g, b)
  {
    && (forall y: Value :: !(y.Phi? && y.at == s) ==> Get(regs', y) == Get(regs, y))
    && (forall v :: v in p.phiVars[s] ==>
          Get(regs', Phi(v, s)) == match Incoming(p, v, b) case None => None case Some(o) => Eval(sem, regs, o))
  }

  lemma PhisEnter<V, W>(p: Problem, sem: Sem<V, W>, s: Block, b: Block, phis: seq<Instr>, regs: map<Value, V>)
    requires p.Analysed() && s in p.f.g.blocks && b in p.f.g.blocks && Reachable(p.f.g, b) && b in p.f.g.pre[s]
    requires PhisOk(p, s, phis) && Null !in p.phiVars[s]
    ensures Entered(p, sem, s, b, regs, EnterPhis(sem, phis, b, regs, regs))
  {
    var r := EnterPhis(sem, phis, b, regs, regs);
    EnterPhisSets(sem, phis, b, regs, regs);
    forall y: Value | !(y.Phi? && y.at == s)
      ensures Get(r, y) == Get(regs, y)
    {
      assert forall k :: 0 <= k < |phis| ==> PhiOk(p, s, phis[k]);
      assert NotAmong(phis, y);
    }
    forall v | v in p.phiVars[s]
      ensures Get(r, Phi(v, s)) == match Incoming(p, v, b) case None => None case Some(o) => Eval(sem, regs, o)
    {
      var k :| 0 <= k < |phis| && phis[k].id == Phi(v, s);
      assert PhiOk(p, s, phis[k]);
    }
  }

  /** A value settled before block s is no phi of s. */
  lemma OlderThanPhis(p: Problem, s: Block, y: Value)
    requires p.Valid() && s in p.f.g.blocks && Reachable(p.f.g, s) && s != p.f.g.Entry()
    requires p.idom[s] in p.f.code && Stable(p, p.idom[s], |p.f.code[p.idom[s]]|, y)
    ensures !(y.Phi? && y.at == s)
  {
    StartFromIdom(p, s);
    if y.Phi? && y.at == s {
      DomAntisymmetric(p.f.g, s, p.idom[s]);
    }
  }

  lemma ScopeOlderThanPhis(p: Problem, s: Block, x: Value)
    requires p.Valid() && s in p.f.g.blocks && Reachable(p.f.g, s) && s != p.f.g.Entry() && InScope(p.f, s, 0, x)
    ensures var y := Sub(Start(p, s).sub, x); !(y.Phi? && y.at == s)
  {
    StartFromIdom(p, s);
    var d := p.idom[s];
    var n := |p.f.code[d]|;
    StateOkAt(p, d, n);
    if x.IsInstruction() {
      var c, j :| DefinedAt(p.f, x, c, j) && Before(p.f.g, c, j, s, 0);
      assert Before(p.f.g, c, j, d, n);
    }
    assert InScope(p.f, d, n, x);
    OperandStable(p, d, n, End(p, d), x);
    OlderThanPhis(p, s, Sub(End(p, d).sub, x));
  }

  lemma EvalAfterPhis<V, W>(p: Problem, sem: Sem<V, W>, s: Block, b: Block, regs: map<Value, V>, regs': map<Value, V>,
          y: Value)
    requires p.Analysed() && s in p.f.g.blocks && b in p.f.g.blocks && Reachable(p.f.g, b)
    requires Entered(p, sem, s, b, regs, regs') && !(y.Phi? && y.at == s)
    ensures Eval(sem, regs', y) == Eval(sem, regs, y)
  {
  }

  lemma RegsMatchEnter<V, W>(p: Problem, sem: Sem<V, W>, b: Block, s: Block, regs: map<Value, V>, regs1: map<Value, V>,
          regs2: map<Value, V>)
    requires p.Valid() && b in p.f.g.blocks && Reachable(p.f.g, b) && s in p.f.g.blocks && Reachable(p.f.g, s)
    requires b in p.f.g.pre[s] && s != p.f.g.Entry()
    requires RegsMatch(p, sem, b, |p.f.code[b]| - 1, End(p, b).sub, regs, regs1)
    requires Entered(p, sem, s, b, regs1, regs2)
    ensures RegsMatch(p, sem, s, 0, Start(p, s).sub, regs, regs2)
  {
    hide Reachable, Start, End;
    BlockFacts(p, b);
    hide Problem.Valid, Problem.Analysed, InScope, Entered;
    forall x | InScope(p.f, s, 0, x)
      ensures Eval(sem, regs, x).Some? && Eval(sem, regs, x) == Eval(sem, regs2, Sub(Start(p, s).sub, x))
    {
      ScopeFromPred(p, s, b, x);
      ScopeOlderThanPhis(p, s, x);
      EvalAfterPhis(p, sem, s, b, regs1, regs2, Sub(Start(p, s).sub, x));
    }
  }

  lemma CellMatchPhi<V, W>(p: Problem, sem: Sem<V, W>, b: Block, s: Block, v: Value, cells: map<Value, V>,
                        regs1: map<Value, V>, regs2: map<Value, V>)
    requires p.Analysed() && b in p.f.g.blocks && Reachable(p.f.g, b) && s in p.f.g.blocks && Reachable(p.f.g, s)
    requires v in p.phiVars[s] && v in p.multi
    requires CellsMatch(p, sem, End(p, b).env, cells, regs1) && Entered(p, sem, s, b, regs1, regs2)
    ensures v in Start(p, s).env && Get(cells, v) == Eval(sem, regs2, Start(p, s).env[v])
  {
    assert Start(p, s).env[v] == Phi(v, s);
  }

  lemma CellMatchOld<V, W>(p: Problem, sem: Sem<V, W>, b: Block, s: Block, v: Value, cells: map<Value, V>,
                        regs1: map<Value, V>, regs2: map<Value, V>)
    requires p.Valid() && b in p.f.g.blocks && Reachable(p.f.g, b) && s in p.f.g.blocks && Reachable(p.f.g, s)
    requires b in p.f.g.pre[s] && s != p.f.g.Entry() && v !in p.phiVars[s]
    requires p.idom[s] in p.f.g.blocks && Reachable(p.f.g, p.idom[s])
    requires v in End(p, p.idom[s]).env && SameDef(End(p, b), End(p, p.idom[s]), v)
    requires CellsMatch(p, sem, End(p, b).env, cells, regs1) && Entered(p, sem, s, b, regs1, regs2)
    ensures Get(cells, v) == Eval(sem, regs2, End(p, p.idom[s]).env[v])
  {
    var d := p.idom[s];
    StateOkAt(p, d, |p.f.code[d]|);
    OlderThanPhis(p, s, End(p, d).env[v]);
    hide Problem.Valid, StateOk, Stable;
    EvalAfterPhis(p, sem, s, b, regs1, regs2, End(p, d).env[v]);
  }

  /** Variable v at the start of s, coming from b: the definition there has the cell's value. */
  lemma CellMatchEnter<V, W>(p: Problem, sem: Sem<V, W>, b: Block, s: Block, v: Value, cells: map<Value, V>,
                          regs1: map<Value, V>, regs2: map<Value, V>)
    requires p.Valid() && b in p.f.g.blocks && Reachable(p.f.g, b) && s in p.f.g.blocks && Reachable(p.f.g, s)
    requires b in p.f.g.pre[s] && s != p.f.g.Entry()
    requires CellsMatch(p, sem, End(p, b).env, cells, regs1) && Entered(p, sem, s, b, regs1, regs2)
    ensures v in Start(p, s).env ==> Get(cells, v) == Eval(sem, regs2, Start(p, s).env[v])
    ensures v in p.multi && v !in Start(p, s).env ==> v !in cells
  {
    hide *;
    PlacementFacts(p, s, v);
    StartFromIdom(p, s);
    var d := p.idom[s];
    EnterEnv(p.phiVars[s], s, End(p, d), v);
    if v in p.phiVars[s] {
      CellMatchPhi(p, sem, b, s, v, cells, regs1, regs2);
    } else if v in End(p, d).env || v in p.multi {
      ReachingDefinition(p, v, s, b);
      DefinitionMatches(p, sem, b, s, v, cells, regs1);
      if v in End(p, d).env {
        CellMatchOld(p, sem, b, s, v, cells, regs1, regs2);
      }
    }
  }

  lemma DefinitionMatches<V, W>(p: Problem, sem: Sem<V, W>, b: Block, s: Block, v: Value, cells: map<Value, V>,
          regs1: map<Value, V>)
    requires p.Analysed() && b in p.f.g.blocks && Reachable(p.f.g, b)
    requires s in p.idom && p.idom[s] in p.f.g.blocks && Reachable(p.f.g, p.idom[s])
    requires CellsMatch(p, sem, End(p, b).env, cells, regs1) && SameDef(End(p, b), End(p, p.idom[s]), v)
    ensures v in p.multi && v !in End(p, p.idom[s]).env ==> v !in cells
  {
  }

  lemma PlacementFacts(p: Problem, s: Block, v: Value)
    requires p.Valid() && s in p.f.g.blocks
    ensures p.Analysed() && p.PhisPlaced() && s in p.phiVars && (v in p.phiVars[s] ==> v in p.multi)
    ensures s != p.f.g.Entry() && Reachable(p.f.g, s) ==> s in p.idom
  {
  }

  lemma EnterEnv(vars: set<Value>, b: Block, rs: RS, v: Value)
    ensures v in Enter(vars, b, rs).env <==> v in vars || v in rs.env
    ensures v !in vars && v in rs.env ==> Enter(vars, b, rs).env[v] == rs.env[v]
  {
  }

  lemma CellsMatchEnter<V, W>(p: Problem, sem: Sem<V, W>, b: Block, s: Block, cells: map<Value, V>,
          regs1: map<Value, V>, regs2: map<Value, V>)
    requires p.Valid() && b in p.f.g.blocks && Reachable(p.f.g, b) && s in p.f.g.blocks && Reachable(p.f.g, s)
    requires b in p.f.g.pre[s] && s != p.f.g.Entry()
    requires CellsMatch(p, sem, End(p, b).env, cells, regs1) && Entered(p, sem, s, b, regs1, regs2)
    ensures CellsMatch(p, sem, Start(p, s).env, cells, regs2)
  {
    forall v | v in Start(p, s).env
      ensures Get(cells, v) == Eval(sem, regs2, Start(p, s).env[v])
    {
      hide *;
      CellMatchEnter(p, sem, b, s, v, cells, regs1, regs2);
    }
    forall v | v in p.multi && v !in Start(p, s).env
      ensures v !in cells
    {
      hide *;
      CellMatchEnter(p, sem, b, s, v, cells, regs1, regs2);
    }
  }

  lemma LastNotStore(p: Problem, b: Block, v: Value)
    requires p.Valid() && b in p.f.code && StoresTo(p.f, b, v)
    ensures |p.f.code[b]| > 0 && StoresBefore(p.f, b, |p.f.code[b]| - 1, v)
  {
    hide Reachable, LoadsDefined, Problem.PhisPlaced, UsesOk, IdsOk;
    var n := |p.f.code[b]| - 1;
    var j :| 0 <= j < n + 1 && p.f.code[b][j].IsCellStore() && p.f.code[b][j].operands[1] == v;
    assert p.f.code[b][n].IsTerminator();
  }

  lemma CellsFilledEnter<V>(p: Problem, b: Block, s: Block, q: seq<Block>, cells: map<Value, V>)
    requires p.Valid() && b in p.f.code && s in p.f.code && PathTo(p.f.g, q, b) && |p.f.code[b]| > 0
    requires CellsFilled(p, b, |p.f.code[b]| - 1, q, cells)
    ensures CellsFilled(p, s, 0, q + [s], cells)
  {
    hide Problem.Valid, StoresTo;
    assert (q + [s])[..|q|] == q;
    forall v | StoredOnPath(p.f, q, v) || StoresBefore(p.f, s, 0, v)
      ensures v in cells
    {
      var k :| 0 <= k < |q| && StoresTo(p.f, q[k], v);
      if k < |q| - 1 {
        assert q[..|q| - 1][k] == q[k];
        assert StoredOnPath(p.f, q[..|q| - 1], v);
      } else {
        LastNotStore(p, b, v);
      }
    }
  }

  /** At the terminator the renaming state is the final one of the block. */
  lemma EndAtTerminator(p: Problem, b: Block)
    requires p.Valid() && b in p.f.g.blocks && Reachable(p.f.g, b)
    ensures b in p.f.code && |p.f.code[b]| > 0 && At(p, b, |p.f.code[b]| - 1) == End(p, b)
  {
    BlockFacts(p, b);
    assert !p.f.code[b][|p.f.code[b]| - 1].IsCellAccess();
  }

  lemma SimEnter<V, W>(p: Problem, sem: Sem<V, W>, b: Block, s: Block, q: seq<Block>, phis: seq<Instr>, st: State<V, W>,
          st': State<V, W>)
    requires p.Valid() && b in p.f.g.blocks && Reachable(p.f.g, b) && s in p.f.g.succ[b]
    requires s in p.f.g.blocks && PhisOk(p, s, phis)
    requires Rel(p, sem, b, |p.f.code[b]| - 1, q, st, st')
    ensures Rel(p, sem, s, 0, q + [s], st, st'.(regs := EnterPhis(sem, phis, b, st'.regs, st'.regs)))
  {
    var regs2 := EnterPhis(sem, phis, b, st'.regs, st'.regs);
    PathExtend(p.f.g, q, b, s);
    SuccReachable(p.f.g, b, s);
    EdgeFacts(p, b, s);
    EndAtTerminator(p, b);
    hide PhisOk, InScope, CellsFilled, RegsMatch, CellsMatch, LoadsDefined, WellFormed, Problem.PhisPlaced, EnterPhis,
        PathTo, At;
    PhisEnter(p, sem, s, b, phis, st'.regs);
    hide Entered, Problem.Valid, Problem.Analysed;
    RegsMatchEnter(p, sem, b, s, st.regs, st'.regs, regs2);
    CellsMatchEnter(p, sem, b, s, st.cells, st'.regs, regs2);
    CellsFilledEnter(p, b, s, q, st.cells);
    RelAtStart(p, sem, s, q + [s], st, st'.(regs := regs2));
  }

  lemma EdgeFacts(p: Problem, b: Block, s: Block)
    requires p.Valid() && b in p.f.g.blocks && s in p.f.g.blocks && s in p.f.g.succ[b]
    ensures b in p.f.g.pre[s] && s != p.f.g.Entry() && Null !in p.phiVars[s]
    ensures b in p.f.code && s in p.f.code
  {
    assert s in p.phiVars;
    assert forall v :: v in p.phiVars[s] ==> v.Alloca?;
  }

  lemma RelAtStart<V, W>(p: Problem, sem: Sem<V, W>, s: Block, q: seq<Block>, st: State<V, W>, st': State<V, W>)
    requires p.Valid() && s in p.f.g.blocks && Reachable(p.f.g, s) && PathTo(p.f.g, q, s) && st.world == st'.world
    requires RegsMatch(p, sem, s, 0, Start(p, s).sub, st.regs, st'.regs)
    requires CellsMatch(p, sem, Start(p, s).env, st.cells, st'.regs)
    requires CellsFilled(p, s, 0, q, st.cells)
    ensures Rel(p, sem, s, 0, q, st, st')
  {
  }

  // ---------- whole runs ----------

  lemma {:induction false} KeepSnoc(list: seq<Instr>, t: Instr)
    requires !t.IsCellAccess()
    ensures Keep(list + [t]) == Keep(list) + [t]
  {
    if |list| > 0 {
      assert (list + [t])[1..] == list[1..] + [t];
      KeepSnoc(list[1..], t);
    } else {
      assert (list + [t])[1..] == [];
    }
  }

  lemma SubListSnoc(sub: map<Value, Value>, list: seq<Instr>, t: Instr)
    ensures SubList(sub, list + [t]) == SubList(sub, list) + [SubInstr(sub, t)]
  {
  }

  /** The rewritten block without phis: the kept body, then the terminator. */
  lemma NewRestShape(p: Problem, b: Block)
    requires p.Valid() && b in p.f.g.blocks && Reachable(p.f.g, b)
    ensures p.Analysed() && b in p.f.code && |p.f.code[b]| > 0
    ensures var list := p.f.code[b]; var n := |list| - 1;
            NewRest(p, b) == SubList(End(p, b).sub, Keep(list[..n])) + [SubInstr(End(p, b).sub, list[n])]
  {
    hide Problem.Valid, Problem.Analysed, Reachable, End, Keep, SubList, SubInstr;
    BlockFacts(p, b);
    var list := p.f.code[b];
    var n := |list| - 1;
    assert list == list[..n] + [list[n]];
    assert list[n].IsTerminator() && !list[n].IsCellAccess();
    KeepSnoc(list[..n], list[n]);
    SubListSnoc(End(p, b).sub, Keep(list[..n]), list[n]);
  }

  /** The original block has no phis. */
  lemma NoPhis(p: Problem, b: Block)
    requires p.Valid() && b in p.f.g.blocks && Reachable(p.f.g, b)
    ensures b in p.f.code && |p.f.code[b]| > 0 && PhiCount(p.f.code[b]) == 0
  {
    BlockFacts(p, b);
  }

  /** The terminator decides alike on both sides. */
  lemma FinishMatch<V, W>(p: Problem, sem: Sem<V, W>, b: Block, q: seq<Block>, st: State<V, W>, st': State<V, W>)
    requires p.Valid() && b in p.f.g.blocks && Reachable(p.f.g, b) && b in p.f.code && |p.f.code[b]| > 0
    requires Rel(p, sem, b, |p.f.code[b]| - 1, q, st, st')
    ensures var t := p.f.code[b][|p.f.code[b]| - 1];
            Finish(sem, t, st.regs) == Finish(sem, SubInstr(End(p, b).sub, t), st'.regs)
    ensures var t := p.f.code[b][|p.f.code[b]| - 1];
            Finish(sem, t, st.regs).Goto? ==> Finish(sem, t, st.regs).b in p.f.g.succ[b]
  {
    hide *;
    BlockFacts(p, b);
    var n := |p.f.code[b]| - 1;
    var t := p.f.code[b][n];
    EndAtTerminator(p, b);
    RelRegs(p, sem, b, n, q, st, st');
    OperandsMatch(p, sem, b, n, st.regs, st'.regs);
    forall k | 0 <= k < |t.operands| && t.operands[k].Label?
      ensures SubOperands(End(p, b).sub, t.operands)[k] == t.operands[k]
    {
      LabelsKept(p, b, t.operands, k);
    }
    FinishAgrees(sem, t, End(p, b).sub, st.regs, st'.regs);
  }

  lemma RelRegs<V, W>(p: Problem, sem: Sem<V, W>, b: Block, i: int, q: seq<Block>, st: State<V, W>, st': State<V, W>)
    requires Rel(p, sem, b, i, q, st, st')
    ensures RegsMatch(p, sem, b, i, At(p, b, i).sub, st.regs, st'.regs)
  {
  }

  lemma LabelsKept(p: Problem, b: Block, ops: seq<Value>, k: int)
    requires p.Valid() && b in p.f.g.blocks && Reachable(p.f.g, b) && 0 <= k < |ops| && ops[k].Label?
    ensures SubOperands(End(p, b).sub, ops)[k] == ops[k]
  {
    NotReplaced(p, b, |p.f.code[b]|, ops[k]);
  }

  lemma FinishAgrees<V, W>(sem: Sem<V, W>, t: Instr, sub: map<Value, Value>, regs: map<Value, V>, regs': map<Value, V>)
    requires t.IsTerminator() && t.Shaped()
    requires forall k :: 0 <= k < |t.operands| ==>
               Eval(sem, regs, t.operands[k]) == Eval(sem, regs', SubOperands(sub, t.operands)[k])
    requires forall k ::
        0 <= k < |t.operands| && t.operands[k].Label? ==> SubOperands(sub, t.operands)[k] == t.operands[k]
    ensures Finish(sem, t, regs) == Finish(sem, SubInstr(sub, t), regs')
    ensures Finish(sem, t, regs).Goto? ==> Finish(sem, t, regs).b in Targets(t)
  {
    var t' := SubInstr(sub, t);
    if t.op.OpBr? {
      if |t.operands| == 1 {
        assert t'.operands[0] == t.operands[0];
      } else {
        assert t'.operands[1] == t.operands[1] && t'.operands[2] == t.operands[2];
        assert Eval(sem, regs, t.operands[0]) == Eval(sem, regs', t'.operands[0]);
      }
    } else if |t.operands| > 0 {
      assert Eval(sem, regs, t.operands[0]) == Eval(sem, regs', t'.operands[0]);
    }
  }

  /** One block of a run, as a function of its body. */
  ghost function BlockResult<V, W>(sem: Sem<V, W>, body: seq<Instr>, t: Instr, st: State<V, W>)
      : Option<(State<V, W>, Next<V>)>
  {
    match Steps(sem, body, st)
    case None => None
    case Some(st') => Some((st', Finish(sem, t, st'.regs)))
  }

  /** How a run goes on after block b. */
  ghost function Continue<V, W>(sem: Sem<V, W>, code: map<Block, seq<Instr>>, b: Block,
          r: Option<(State<V, W>, Next<V>)>, fuel: nat): Outcome<V, W>
  {
    match r
    case None => Stuck
    case Some((st, Wrong)) => Stuck
    case Some((st, Return(v))) => Returned(v, st.world)
    case Some((st, Goto(s))) => RunFrom(sem, code, s, b, st, fuel)
  }

  lemma RunUnfolds<V, W>(sem: Sem<V, W>, code: map<Block, seq<Instr>>, b: Block, from: Block, st: State<V, W>,
          fuel: nat, phis: seq<Instr>, body: seq<Instr>, t: Instr)
    requires fuel > 0 && b in code && code[b] == phis + (body + [t]) && PhiCount(code[b]) == |phis|
    ensures RunFrom(sem, code, b, from, st, fuel) ==
            Continue(sem, code, b, BlockResult(sem, body, t,
                st.(regs := EnterPhis(sem, phis, from, st.regs, st.regs))), fuel - 1)
  {
    var list := code[b];
    assert list[..|phis|] == phis;
    assert list[|phis|..|list| - 1] == body;
    assert list[|list| - 1] == t;
  }

  /** The body of b runs alike on both sides, including its terminator, unless the
      original reads an empty cell. */
  lemma SimBlock<V, W>(p: Problem, sem: Sem<V, W>, b: Block, q: seq<Block>, st: State<V, W>, st': State<V, W>)
    requires p.Valid() && b in p.f.g.blocks && Reachable(p.f.g, b) && b in p.f.code && |p.f.code[b]| > 0
    requires Rel(p, sem, b, 0, q, st, st')
    ensures var list := p.f.code[b]; var n := |list| - 1; var sub := End(p, b).sub;
            var r := BlockResult(sem, list[..n], list[n], st);
            var r' := BlockResult(sem, SubList(sub, Keep(list[..n])), SubInstr(sub, list[n]), st');
            && (DefinitelyAssigned(p.f) && r'.Some? ==> r.Some?)
            && (r.Some? ==> r'.Some? && r.value.1 == r'.value.1 && Rel(p, sem, b, n, q, r.value.0, r'.value.0)
                            && (r.value.1.Goto? ==> r.value.1.b in p.f.g.succ[b]))
  {
    hide *;
    hide Rel;
    BlockFacts(p, b);
    var list := p.f.code[b];
    var n := |list| - 1;
    SimSteps(p, sem, b, 0, q, st, st');
    assert list[0..n] == list[..n];
    var r, r' := Steps(sem, list[..n], st), Steps(sem, SubList(End(p, b).sub, Keep(list[..n])), st');
    BlockResultIs(sem, list[..n], list[n], st);
    BlockResultIs(sem, SubList(End(p, b).sub, Keep(list[..n])), SubInstr(End(p, b).sub, list[n]), st');
    if r.Some? {
      FinishMatch(p, sem, b, q, r.value, r'.value);
    }
  }

  lemma BlockResultIs<V, W>(sem: Sem<V, W>, body: seq<Instr>, t: Instr, st: State<V, W>)
    ensures BlockResult(sem, body, t, st) ==
            if Steps(sem, body, st).None? then None
            else Some((Steps(sem, body, st).value, Finish(sem, t, Steps(sem, body, st).value.regs)))
  {
  }

  lemma RewrittenAt(p: Problem, code: map<Block, seq<Instr>>, b: Block) returns (phis: seq<Instr>)
    requires p.Valid() && Rewritten(p, code) && b in p.f.g.blocks && Reachable(p.f.g, b)
    ensures b in code && code[b] == phis + NewRest(p, b) && PhiCount(code[b]) == |phis| && PhisOk(p, b, phis)
  {
    hide Reachable, Problem.Valid, NewRest, PhiOk;
    var n := PhiCount(code[b]);
    phis := code[b][..n];
    assert code[b] == code[b][..n] + code[b][n..];
  }

  /** The run of the original from b, with fuel for at least one block. */
  lemma OriginalUnfolds<V, W>(p: Problem, sem: Sem<V, W>, b: Block, from: Block, st: State<V, W>, fuel: nat)
    requires p.Valid() && b in p.f.g.blocks && Reachable(p.f.g, b) && fuel > 0
    ensures b in p.f.code && |p.f.code[b]| > 0
    ensures var list := p.f.code[b]; var n := |list| - 1;
            RunFrom(sem, p.f.code, b, from, st, fuel)
                == Continue(sem, p.f.code, b, BlockResult(sem, list[..n], list[n], st), fuel - 1)
  {
    hide *;
    NoPhis(p, b);
    var list := p.f.code[b];
    var n := |list| - 1;
    assert list == [] + (list[..n] + [list[n]]);
    RunUnfolds(sem, p.f.code, b, from, st, fuel, [], list[..n], list[n]);
    EnterNoPhis(sem, from, st);
  }

  lemma RewrittenUnfolds<V, W>(p: Problem, code: map<Block, seq<Instr>>, sem: Sem<V, W>, b: Block, from: Block,
          phis: seq<Instr>, st: State<V, W>, fuel: nat)
    requires p.Valid() && b in p.f.g.blocks && Reachable(p.f.g, b) && fuel > 0
    requires b in code && code[b] == phis + NewRest(p, b) && PhiCount(code[b]) == |phis|
    ensures p.Analysed() && b in p.f.code && |p.f.code[b]| > 0
    ensures var list := p.f.code[b]; var n := |list| - 1; var sub := End(p, b).sub;
            RunFrom(sem, code, b, from, st, fuel) ==
            Continue(sem, code, b, BlockResult(sem, SubList(sub, Keep(list[..n])), SubInstr(sub, list[n]),
                                               st.(regs := EnterPhis(sem, phis, from, st.regs, st.regs))), fuel - 1)
  {
    hide *;
    NewRestShape(p, b);
    var list := p.f.code[b];
    var n, sub := |list| - 1, End(p, b).sub;
    RunUnfolds(sem, code, b, from, st, fuel, phis, SubList(sub, Keep(list[..n])), SubInstr(sub, list[n]));
  }

  /** From related states the two functions run alike, whatever the fuel, unless the
      original gets stuck; with definite assignment even then. */
  lemma {:induction false} SimRun<V, W>(p: Problem, code: map<Block, seq<Instr>>, sem: Sem<V, W>, b: Block, from: Block,
          q: seq<Block>,
                                     phis: seq<Instr>, st: State<V, W>, st': State<V, W>, fuel: nat)
    requires p.Valid() && Rewritten(p, code) && b in p.f.g.blocks && Reachable(p.f.g, b)
    requires b in code && code[b] == phis + NewRest(p, b) && PhiCount(code[b]) == |phis|
    requires Rel(p, sem, b, 0, q, st, st'.(regs := EnterPhis(sem, phis, from, st'.regs, st'.regs)))
    ensures DefinitelyAssigned(p.f) || !RunFrom(sem, p.f.code, b, from, st, fuel).Stuck? ==>
              RunFrom(sem, p.f.code, b, from, st, fuel) == RunFrom(sem, code, b, from, st', fuel)
    decreases fuel
  {
    hide *;
    if fuel > 0 {
      BlockFacts(p, b);
      OriginalUnfolds(p, sem, b, from, st, fuel);
      RewrittenUnfolds(p, code, sem, b, from, phis, st', fuel);
      var list := p.f.code[b];
      var n, sub := |list| - 1, End(p, b).sub;
      var entered := st'.(regs := EnterPhis(sem, phis, from, st'.regs, st'.regs));
      SimBlock(p, sem, b, q, st, entered);
      var r := BlockResult(sem, list[..n], list[n], st);
      var r' := BlockResult(sem, SubList(sub, Keep(list[..n])), SubInstr(sub, list[n]), entered);
      if r.Some? {
        RelWorld(p, sem, b, n, q, r.value.0, r'.value.0);
        if r.value.1.Goto? {
          var s := r.value.1.b;
          SuccReachable(p.f.g, b, s);
          var phis' := RewrittenAt(p, code, s);
          SimEnter(p, sem, b, s, q, phis', r.value.0, r'.value.0);
          SimRun(p, code, sem, s, b, q + [s], phis', r.value.0, r'.value.0, fuel - 1);
        }
      }
      ContinueAlike(sem, p.f.code, code, b, r, r', fuel - 1, DefinitelyAssigned(p.f));
    } else {
      RunOutOfFuel(sem, p.f.code, code, b, from, st, st');
    }
  }

  lemma ContinueAlike<V, W>(sem: Sem<V, W>, code: map<Block, seq<Instr>>, code': map<Block, seq<Instr>>, b: Block,
                         r: Option<(State<V, W>, Next<V>)>, r': Option<(State<V, W>, Next<V>)>, fuel: nat, always: bool)
    requires always && r'.Some? ==> r.Some?
    requires r.Some? ==> r'.Some? && r.value.1 == r'.value.1 && r.value.0.world == r'.value.0.world
    requires r.Some? && r.value.1.Goto? ==>
               var s := r.value.1.b;
               (always || !RunFrom(sem, code, s, b, r.value.0, fuel).Stuck? ==>
                  RunFrom(sem, code, s, b, r.value.0, fuel) == RunFrom(sem, code', s, b, r'.value.0, fuel))
    ensures always || !Continue(sem, code, b, r, fuel).Stuck? ==>
              Continue(sem, code, b, r, fuel) == Continue(sem, code', b, r', fuel)
  {
  }

  lemma RunOutOfFuel<V, W>(sem: Sem<V, W>, code: map<Block, seq<Instr>>, code': map<Block, seq<Instr>>, b: Block,
          from: Block, st: State<V, W>, st': State<V, W>)
    ensures RunFrom(sem, code, b, from, st, 0) == RunFrom(sem, code', b, from, st', 0)
  {
  }

  lemma RelWorld<V, W>(p: Problem, sem: Sem<V, W>, b: Block, i: int, q: seq<Block>, st: State<V, W>, st': State<V, W>)
    requires Rel(p, sem, b, i, q, st, st')
    ensures st.world == st'.world
  {
  }

  lemma EnterNoPhis<V, W>(sem: Sem<V, W>, from: Block, st: State<V, W>)
    ensures st.(regs := EnterPhis(sem, [], from, st.regs, st.regs)) == st
  {
  }

  /** At the entry nothing is defined and no phi has a value. */
  lemma SimStart<V, W>(p: Problem, sem: Sem<V, W>, phis: seq<Instr>, world: W)
    requires p.Valid() && PhisOk(p, p.f.g.Entry(), phis)
    ensures p.f.g.Entry() in p.f.g.blocks && Reachable(p.f.g, p.f.g.Entry())
    ensures Rel(p, sem, p.f.g.Entry(), 0, [p.f.g.Entry()], State(map[], map[], world),
                State(EnterPhis(sem, phis, NULL, map[], map[]), map[], world))
  {
    var e := p.f.g.Entry();
    EntryReachable(p.f.g);
    assert [e][..0] == [];
    var regs := EnterPhis(sem, phis, NULL, map[], map[]);
    forall x | InScope(p.f, e, 0, x)
      ensures Eval(sem, map[], x).Some? && Eval(sem, map[], x) == Eval(sem, regs, Sub(Start(p, e).sub, x))
    {
      if x.IsInstruction() {
        var c, j :| DefinedAt(p.f, x, c, j) && Before(p.f.g, c, j, e, 0);
        OnlyEntryDominatesEntry(p.f.g, c);
      }
    }
    assert Start(p, e).env == map[];
  }

  /** Promotion preserves meaning: for every interpretation of the other
      instructions, every initial world and every amount of fuel, the rewritten
      function returns or is still running exactly like the original. Where the
      original gets stuck the rewritten function does too, if every promoted load
      follows a store on every path. */
  lemma PromotionPreservesRuns<V, W>(p: Problem, code: map<Block, seq<Instr>>, sem: Sem<V, W>, world: W, fuel: nat)
    requires p.Valid() && Rewritten(p, code)
    ensures DefinitelyAssigned(p.f) || !Run(sem, p.f, world, fuel).Stuck? ==>
              Run(sem, Function(p.f.g, code), world, fuel) == Run(sem, p.f, world, fuel)
  {
    var e := p.f.g.Entry();
    EntryReachable(p.f.g);
    var phis := RewrittenAt(p, code, e);
    SimStart(p, sem, phis, world);
    var st := State(map[], map[], world);
    SimRun(p, code, sem, e, NULL, [e], phis, st, st, fuel);
  }
}
