/** A rewritten function needs no cells: its run over items is its run in memory. */
module MemoryRuns {
  import opened Cfg
  import opened Ir
  import opened Exec
  import opened Renaming
  import opened Promotion
  import opened Program
  import opened ItemRuns

  /** No access to a cell; calls name their function. */
  predicate Direct(ins: Instr) {
    && !ins.IsCellAccess() && ins.id.IsInstruction()
    && (ins.op.OpCall? ==> |ins.operands| > 0 && ins.operands[0].Func?)
  }

  ghost predicate AllAgrees(sem: Sem<Item, View>, regs: Regs, items: map<Value, Item>) {
    forall v :: Agrees(sem, regs, items, v)
  }

  ghost predicate Mirrors(sem: Sem<Item, View>, fr: Frame, st: State<Item, View>) {
    AllAgrees(sem, fr.regs, st.regs) && st.world == View(fr.mem, fr.out)
  }

  // ---------- one instruction ----------

  lemma DefineAgrees(sem: Sem<Item, View>, regs: Regs, items: map<Value, Item>, id: Value, r: Item)
    requires AllAgrees(sem, regs, items) && id.IsInstruction()
    ensures AllAgrees(sem, SetVal(regs, id, AsVal(Some(r))), items[id := r])
  {
    var regs', items' := SetVal(regs, id, AsVal(Some(r))), items[id := r];
    forall v ensures Agrees(sem, regs', items', v) {
      assert Agrees(sem, regs, items, v);
    }
  }

  /** What an instruction does with operand items xs. */
  ghost function StepOn(pr: seq<Proc>, mc: Machine, depth: nat, ins: Instr, xs: seq<Item>, st: State<Item, View>)
      : Option<State<Item, View>>
  {
    match ItemStep(pr, mc, depth, ins.op, ins.id, xs, st.world)
    case None => None
    case Some((r, w)) => Some(State(if ins.Defines() then st.regs[ins.id := r] else st.regs, st.cells, w))
  }

  lemma StepIs(pr: seq<Proc>, mc: Machine, args: seq<Val>, depth: nat, ins: Instr, st: State<Item, View>)
    requires !ins.IsCellAccess()
    ensures var sem := ItemSem(pr, mc, args, depth);
      Step(sem, ins, st) ==
      match EvalAll(sem, st.regs, ins.operands)
      case None => None
      case Some(xs) => StepOn(pr, mc, depth, ins, xs, st)
  {
  }

  /** The items are the values the operands have in these registers. */
  ghost predicate Reads(regs: Regs, vs: seq<Value>, xs: seq<Item>) {
    && |xs| == |vs| && AllVals(xs) == LookupAll(regs, vs)
    && (forall i :: 0 <= i < |vs| ==> Lookup(regs, vs[i]) == AsVal(Some(xs[i])))
    && (|vs| > 0 ==> AllVals(xs[1..]) == LookupAll(regs, vs[1..]))
  }

  lemma {:induction false} OperandsRead(sem: Sem<Item, View>, regs: Regs, items: map<Value, Item>, vs: seq<Value>)
    requires forall v :: v in vs ==> Agrees(sem, regs, items, v)
    ensures EvalAll(sem, items, vs).Some? ==> Reads(regs, vs, EvalAll(sem, items, vs).value)
  {
    AllAgree(sem, regs, items, vs);
    if |vs| > 0 && EvalAll(sem, items, vs).Some? {
      EvalAllHead(sem, items, vs);
      OperandsRead(sem, regs, items, vs[1..]);
      assert Agrees(sem, regs, items, vs[0]);
      var xs := EvalAll(sem, items, vs).value;
      forall i | 0 <= i < |vs| ensures Lookup(regs, vs[i]) == AsVal(Some(xs[i])) {
        if i > 0 { assert vs[i] == vs[1..][i - 1] && xs[i] == xs[1..][i - 1]; }
      }
    }
  }

  /** Instructions other than calls do with items what they do in memory. */
  lemma SimpleIs(pr: seq<Proc>, mc: Machine, depth: nat, ins: Instr, xs: seq<Item>, fr: Frame, w: View)
    requires Reads(fr.regs, ins.operands, xs) && !ins.op.OpCall? && w == View(fr.mem, fr.out)
    requires ItemStep(pr, mc, depth, ins.op, ins.id, xs, w).Some?
    ensures var (r, w') := ItemStep(pr, mc, depth, ins.op, ins.id, xs, w).value;
      var to := Frame(if ins.op.OpStore? then fr.regs else SetVal(fr.regs, ins.id, AsVal(Some(r))), w'.mem, w'.out);
      ExecSimple(mc, ins, fr, depth) == Done(to)
  {
    hide LookupAll, AllVals, Lookup, Live;
    match ins.op
    case OpLoad => assert Lookup(fr.regs, ins.operands[0]) == AsVal(Some(xs[0]));
    case OpStore =>
      assert Lookup(fr.regs, ins.operands[0]) == AsVal(Some(xs[0]));
      assert Lookup(fr.regs, ins.operands[1]) == AsVal(Some(xs[1]));
    case OpGep => assert Lookup(fr.regs, ins.operands[0]) == AsVal(Some(xs[0]));
    case _ =>
  }

  lemma MirrorSimple(pr: seq<Proc>, mc: Machine, args: seq<Val>, depth: nat, ins: Instr, fr: Frame,
          st: State<Item, View>)
    requires Mirrors(ItemSem(pr, mc, args, depth), fr, st) && Direct(ins) && !ins.op.OpCall?
    requires Step(ItemSem(pr, mc, args, depth), ins, st).Some?
    ensures ExecSimple(mc, ins, fr, depth).Done?
    ensures Mirrors(ItemSem(pr, mc, args, depth), ExecSimple(mc, ins, fr, depth).value,
        Step(ItemSem(pr, mc, args, depth), ins, st).value)
  {
    var sem := ItemSem(pr, mc, args, depth);
    StepIs(pr, mc, args, depth, ins, st);
    hide Step, ExecSimple, ItemSem, Agrees, EvalAll, SetVal;
    OperandsRead(sem, fr.regs, st.regs, ins.operands);
    var xs := EvalAll(sem, st.regs, ins.operands).value;
    SimpleIs(pr, mc, depth, ins, xs, fr, st.world);
    DefineAgrees(sem, fr.regs, st.regs, ins.id, ItemStep(pr, mc, depth, ins.op, ins.id, xs, st.world).value.0);
  }

  lemma MirrorCall(pr: seq<Proc>, mc: Machine, args: seq<Val>, depth: nat, ins: Instr, fr: Frame,
          st: State<Item, View>) returns (k: nat)
    requires Mirrors(ItemSem(pr, mc, args, depth), fr, st) && Direct(ins) && ins.op.OpCall?
    requires Step(ItemSem(pr, mc, args, depth), ins, st).Some?
    ensures ExecOne(pr, mc, ins, fr, depth, k).Done?
    ensures Mirrors(ItemSem(pr, mc, args, depth), ExecOne(pr, mc, ins, fr, depth, k).value,
        Step(ItemSem(pr, mc, args, depth), ins, st).value)
  {
    var sem := ItemSem(pr, mc, args, depth);
    StepIs(pr, mc, args, depth, ins, st);
    var g := ins.operands[0].fid;
    EvalAllHead(sem, st.regs, ins.operands);
    assert Eval(sem, st.regs, ins.operands[0]) == Some(Code(g));
    hide Step, ItemSem, Agrees, EvalAll, SetVal, CallProc, CallEnd, AllVals;
    OperandsRead(sem, fr.regs, st.regs, ins.operands);
    var xs := EvalAll(sem, st.regs, ins.operands).value;
    var ys := AllVals(xs[1..]).value;
    k := EndFuel(pr, mc, g, ys, depth + 1, st.world);
    k := k + 1;
    DefineAgrees(sem, fr.regs, st.regs, ins.id, ItemStep(pr, mc, depth, ins.op, ins.id, xs, st.world).value.0);
  }

  lemma MirrorOne(pr: seq<Proc>, mc: Machine, args: seq<Val>, depth: nat, ins: Instr, fr: Frame,
          st: State<Item, View>) returns (k: nat)
    requires Mirrors(ItemSem(pr, mc, args, depth), fr, st) && Direct(ins)
    requires Step(ItemSem(pr, mc, args, depth), ins, st).Some?
    ensures ExecOne(pr, mc, ins, fr, depth, k).Done?
    ensures Mirrors(ItemSem(pr, mc, args, depth), ExecOne(pr, mc, ins, fr, depth, k).value,
        Step(ItemSem(pr, mc, args, depth), ins, st).value)
  {
    hide Mirrors, Direct, Step, ItemSem, CallProc, ExecSimple;
    if ins.op.OpCall? {
      k := MirrorCall(pr, mc, args, depth, ins, fr, st);
    } else {
      MirrorSimple(pr, mc, args, depth, ins, fr, st);
      k := 0;
    }
  }

  // ---------- lists, phis and terminators ----------

  lemma {:induction false} MirrorList(pr: seq<Proc>, mc: Machine, args: seq<Val>, depth: nat, list: seq<Instr>,
          fr: Frame, st: State<Item, View>) returns (k: nat)
    requires Mirrors(ItemSem(pr, mc, args, depth), fr, st)
    requires forall i :: 0 <= i < |list| ==> Direct(list[i])
    requires Steps(ItemSem(pr, mc, args, depth), list, st).Some?
    ensures ExecList(pr, mc, list, fr, depth, k).Done?
    ensures Mirrors(ItemSem(pr, mc, args, depth), ExecList(pr, mc, list, fr, depth, k).value,
        Steps(ItemSem(pr, mc, args, depth), list, st).value)
    decreases |list|
  {
    hide Mirrors, Direct, ItemSem, ExecOne, Step;
    k := 0;
    if |list| > 0 {
      var k0 := MirrorOne(pr, mc, args, depth, list[0], fr, st);
      var fr' := ExecOne(pr, mc, list[0], fr, depth, k0).value;
      var k1 := MirrorList(pr, mc, args, depth, list[1..], fr', Step(ItemSem(pr, mc, args, depth), list[0], st).value);
      k := k0 + k1;
      MoreFuelOne(pr, mc, list[0], fr, depth, k0, k);
      MoreFuelList(pr, mc, list[1..], fr', depth, k1, k);
    }
  }

  lemma {:induction false} MirrorPhis(sem: Sem<Item, View>, phis: seq<Instr>, from: Block, before: Regs,
          ibefore: map<Value, Item>, regs: Regs, items: map<Value, Item>)
    requires forall i :: 0 <= i < |phis| ==> phis[i].id.IsInstruction()
    requires AllAgrees(sem, before, ibefore) && AllAgrees(sem, regs, items)
    ensures AllAgrees(sem, EnterBlock(phis, from, before, regs), EnterPhis(sem, phis, from, ibefore, items))
  {
    if |phis| > 0 {
      var id := phis[0].id;
      var x, y := PhiIn(before, phis[0], from), PhiValue(sem, ibefore, phis[0], from);
      assert x == AsVal(y) by {
        if PhiSource(phis[0].operands, from).Some? {
          assert Agrees(sem, before, ibefore, PhiSource(phis[0].operands, from).value);
        }
      }
      var regs', items' := SetVal(regs, id, x), SetReg(items, id, y);
      forall v ensures Agrees(sem, regs', items', v) {
        assert Agrees(sem, regs, items, v);
      }
      MirrorPhis(sem, phis[1..], from, before, ibefore, regs', items');
    }
  }

  /** The result of a run is none or a value. */
  predicate IsResult(v: Option<Item>) {
    v.Some? ==> v.value.Holds?
  }

  lemma MirrorBranch(pr: seq<Proc>, mc: Machine, args: seq<Val>, depth: nat, t: Instr, regs: Regs,
          items: map<Value, Item>)
    requires AllAgrees(ItemSem(pr, mc, args, depth), regs, items)
    ensures match Finish(ItemSem(pr, mc, args, depth), t, items)
      case Wrong => true
      case Return(v) => IsResult(v) ==> Branch(t, regs) == Leave(AsVal(v))
      case Goto(s) => Branch(t, regs) == JumpTo(s)
  {
    if |t.operands| > 0 {
      assert Agrees(ItemSem(pr, mc, args, depth), regs, items, t.operands[0]);
    }
  }

  // ---------- whole runs ----------

  /** The calls of a function name their functions. */
  ghost predicate CallsNamed(f: Function) {
    forall b, i :: b in f.code && 0 <= i < |f.code[b]| && f.code[b][i].op.OpCall? ==>
      |f.code[b][i].operands| > 0 && f.code[b][i].operands[0].Func?
  }

  lemma {:induction false} KeepFrom(list: seq<Instr>, k: nat) returns (j: nat)
    requires k < |Keep(list)|
    ensures j < |list| && list[j] == Keep(list)[k] && !list[j].IsCellAccess()
  {
    if list[0].IsCellAccess() {
      j := KeepFrom(list[1..], k);
      j := j + 1;
    } else if k == 0 {
      j := 0;
    } else {
      j := KeepFrom(list[1..], k - 1);
      j := j + 1;
    }
  }

  lemma SubDirect(p: Problem, b: Block, j: nat)
    requires p.Valid() && b in p.f.g.blocks && Reachable(p.f.g, b) && CallsNamed(p.f)
    requires j < |p.f.code[b]| && !p.f.code[b][j].IsCellAccess()
    ensures Direct(SubInstr(End(p, b).sub, p.f.code[b][j]))
  {
    var ins := p.f.code[b][j];
    StillNoCellAccess(p, b, j);
    if ins.op.OpCall? { NotReplaced(p, b, |p.f.code[b]|, ins.operands[0]); }
  }

  /** What is left of the body of a reachable block accesses no cell. */
  lemma BodyDirect(p: Problem, b: Block)
    requires p.Valid() && b in p.f.g.blocks && Reachable(p.f.g, b) && CallsNamed(p.f)
    ensures p.Analysed() && |p.f.code[b]| > 0
    ensures var body := SubList(End(p, b).sub, Keep(p.f.code[b][..|p.f.code[b]| - 1]));
      forall i :: 0 <= i < |body| ==> Direct(body[i])
  {
    hide Direct, Keep, CallsNamed, End, Reachable;
    BlockFacts(p, b);
    hide Problem.Valid, Problem.Analysed;
    var list := p.f.code[b][..|p.f.code[b]| - 1];
    forall i | 0 <= i < |Keep(list)| ensures Direct(SubInstr(End(p, b).sub, Keep(list)[i])) {
      var j := KeepFrom(list, i);
      SubDirect(p, b, j);
    }
  }

  lemma GoesToTarget(sem: Sem<Item, View>, t: Instr, sub: map<Value, Value>, items: map<Value, Item>)
    requires t.IsTerminator() && t.Shaped()
    requires forall k ::
        0 <= k < |t.operands| && t.operands[k].Label? ==> SubOperands(sub, t.operands)[k] == t.operands[k]
    ensures var next := Finish(sem, SubInstr(sub, t), items);
      next.Goto? ==> next.b in Targets(t)
  {
    if t.op.OpBr? && |t.operands| == 1 {
      assert SubInstr(sub, t).operands[0] == t.operands[0];
    } else if t.op.OpBr? {
      assert SubInstr(sub, t).operands[1] == t.operands[1] && SubInstr(sub, t).operands[2] == t.operands[2];
    }
  }

  /** The rewritten terminator leads to successors of its block. */
  lemma GoesToSuccessor(p: Problem, sem: Sem<Item, View>, b: Block, items: map<Value, Item>)
    requires p.Valid() && b in p.f.g.blocks && Reachable(p.f.g, b)
    ensures p.Analysed() && |p.f.code[b]| > 0
    ensures var next := Finish(sem, SubInstr(End(p, b).sub, p.f.code[b][|p.f.code[b]| - 1]), items);
      next.Goto? ==> next.b in p.f.g.succ[b]
  {
    hide *;
    BlockFacts(p, b);
    var t := p.f.code[b][|p.f.code[b]| - 1];
    forall k | 0 <= k < |t.operands| && t.operands[k].Label?
      ensures SubOperands(End(p, b).sub, t.operands)[k] == t.operands[k]
    {
      LabelsKept(p, b, t.operands, k);
    }
    GoesToTarget(sem, t, End(p, b).sub, items);
  }

  /** A block of a run in memory, by its parts. */
  lemma BlocksUnfold(pr: seq<Proc>, mc: Machine, code: map<Block, seq<Instr>>, b: Block, from: Block, fr: Frame,
          depth: nat, k: nat, phis: seq<Instr>, body: seq<Instr>, t: Instr)
    requires k > 0 && b in code && code[b] == phis + (body + [t]) && PhiCount(code[b]) == |phis|
    ensures var entered := fr.(regs := EnterBlock(phis, from, fr.regs, fr.regs));
      RunBlocks(pr, mc, code, b, from, fr, depth, k) ==
      match ExecList(pr, mc, body, entered, depth, k)
      case Fails => Fails
      case OutOfFuel => OutOfFuel
      case Done(to) =>
        match Branch(t, to.regs)
        case Bad => Fails
        case Leave(v) => Done(Ended(v, Trim(to.mem, depth), to.out))
        case JumpTo(s) => RunBlocks(pr, mc, code, s, b, to, depth, k - 1)
  {
    var list := code[b];
    assert list[..|phis|] == phis;
    assert list[|phis|..|list| - 1] == body;
    assert list[|list| - 1] == t;
  }

  lemma PhisAreInstructions(p: Problem, b: Block, phis: seq<Instr>)
    requires p.Analysed() && b in p.f.g.blocks && PhisOk(p, b, phis)
    ensures forall i :: 0 <= i < |phis| ==> phis[i].id.IsInstruction()
  {
    forall i | 0 <= i < |phis| ensures phis[i].id.IsInstruction() {
      assert PhiOk(p, b, phis[i]);
    }
  }

  /** One block: what a run over items does is done in memory, with some fuel. */
  lemma MirrorBlock(p: Problem, code: map<Block, seq<Instr>>, pr: seq<Proc>, mc: Machine, args: seq<Val>, depth: nat,
          b: Block, from: Block, fr: Frame, st: State<Item, View>) returns (k: nat, phis: seq<Instr>)
    requires p.Valid() && Rewritten(p, code) && CallsNamed(p.f) && b in p.f.g.blocks && Reachable(p.f.g, b)
    requires Mirrors(ItemSem(pr, mc, args, depth), fr, st)
    ensures p.Analysed() && |p.f.code[b]| > 0 && b in code && PhiCount(code[b]) == |phis|
    ensures var list := p.f.code[b]; var n := |list| - 1; var sub := End(p, b).sub;
      code[b] == phis + (SubList(sub, Keep(list[..n])) + [SubInstr(sub, list[n])])
    ensures var list := p.f.code[b]; var n := |list| - 1; var sub := End(p, b).sub;
      var sem := ItemSem(pr, mc, args, depth);
      var body := SubList(sub, Keep(list[..n]));
      var entered := st.(regs := EnterPhis(sem, phis, from, st.regs, st.regs));
      var r := Steps(sem, body, entered);
      var to := ExecList(pr, mc, body, fr.(regs := EnterBlock(phis, from, fr.regs, fr.regs)), depth, k);
      r.Some? ==> to.Done? && Mirrors(sem, to.value, r.value)
  {
    hide *;
    BlockFacts(p, b);
    BodyDirect(p, b);
    NewRestShape(p, b);
    phis := RewrittenAt(p, code, b);
    PhisAreInstructions(p, b, phis);
    var sem := ItemSem(pr, mc, args, depth);
    var body := SubList(End(p, b).sub, Keep(p.f.code[b][..|p.f.code[b]| - 1]));
    MirrorEnter(sem, phis, from, fr, st);
    var entered := st.(regs := EnterPhis(sem, phis, from, st.regs, st.regs));
    k := 0;
    if Steps(sem, body, entered).Some? {
      k := MirrorList(pr, mc, args, depth, body, fr.(regs := EnterBlock(phis, from, fr.regs, fr.regs)), entered);
    }
  }

  lemma MirrorEnter(sem: Sem<Item, View>, phis: seq<Instr>, from: Block, fr: Frame, st: State<Item, View>)
    requires Mirrors(sem, fr, st) && forall i :: 0 <= i < |phis| ==> phis[i].id.IsInstruction()
    ensures Mirrors(sem, fr.(regs := EnterBlock(phis, from, fr.regs, fr.regs)),
        st.(regs := EnterPhis(sem, phis, from, st.regs, st.regs)))
  {
    hide AllAgrees;
    MirrorPhis(sem, phis, from, fr.regs, st.regs, fr.regs, st.regs);
  }

  /** A run of the rewritten function over items that returns is one in memory. */
  lemma {:induction false} MirrorRun(p: Problem, code: map<Block, seq<Instr>>, pr: seq<Proc>, mc: Machine,
          args: seq<Val>, depth: nat, b: Block, from: Block, fr: Frame, st: State<Item, View>, fuel: nat)
      returns (k: nat)
    requires p.Valid() && Rewritten(p, code) && CallsNamed(p.f) && b in p.f.g.blocks && Reachable(p.f.g, b)
    requires Mirrors(ItemSem(pr, mc, args, depth), fr, st)
    requires RunFrom(ItemSem(pr, mc, args, depth), code, b, from, st, fuel).Returned?
    requires IsResult(RunFrom(ItemSem(pr, mc, args, depth), code, b, from, st, fuel).result)
    ensures var r := RunFrom(ItemSem(pr, mc, args, depth), code, b, from, st, fuel);
      RunBlocks(pr, mc, code, b, from, fr, depth, k)
          == Done(Ended(AsVal(r.result), Trim(r.world.mem, depth), r.world.out))
    decreases fuel
  {
    hide *;
    var sem := ItemSem(pr, mc, args, depth);
    BlockFacts(p, b);
    SomeFuel(sem, code, b, from, st, fuel);
    var k0, phis := MirrorBlock(p, code, pr, mc, args, depth, b, from, fr, st);
    var list := p.f.code[b];
    var n, sub := |list| - 1, End(p, b).sub;
    var body, t := SubList(sub, Keep(list[..n])), SubInstr(sub, list[n]);
    var entered := st.(regs := EnterPhis(sem, phis, from, st.regs, st.regs));
    RunUnfolds(sem, code, b, from, st, fuel, phis, body, t);
    BlockResultIs(sem, body, t, entered);
    ContinueIs(sem, code, b, BlockResult(sem, body, t, entered), fuel - 1);
    var st' := Steps(sem, body, entered).value;
    var fr0 := fr.(regs := EnterBlock(phis, from, fr.regs, fr.regs));
    var to := ExecList(pr, mc, body, fr0, depth, k0).value;
    MirrorsRegs(sem, to, st');
    MirrorBranch(pr, mc, args, depth, t, to.regs, st'.regs);
    var k1: nat := 0;
    if Finish(sem, t, st'.regs).Goto? {
      var s := Finish(sem, t, st'.regs).b;
      GoesToSuccessor(p, sem, b, st'.regs);
      SuccReachable(p.f.g, b, s);
      k1 := MirrorRun(p, code, pr, mc, args, depth, s, b, to, st', fuel - 1);
      MoreFuelBlocks(pr, mc, code, s, b, to, depth, k1, k0 + k1);
    }
    k := k0 + k1 + 1;
    MoreFuelList(pr, mc, body, fr0, depth, k0, k);
    BlocksUnfold(pr, mc, code, b, from, fr, depth, k, phis, body, t);
  }

  lemma SomeFuel(sem: Sem<Item, View>, code: map<Block, seq<Instr>>, b: Block, from: Block, st: State<Item, View>,
          fuel: nat)
    requires RunFrom(sem, code, b, from, st, fuel).Returned?
    ensures fuel > 0
  {
  }

  lemma MirrorsRegs(sem: Sem<Item, View>, fr: Frame, st: State<Item, View>)
    requires Mirrors(sem, fr, st)
    ensures AllAgrees(sem, fr.regs, st.regs) && st.world == View(fr.mem, fr.out)
  {
  }

  lemma ContinueIs(sem: Sem<Item, View>, code: map<Block, seq<Instr>>, b: Block,
          r: Option<(State<Item, View>, Next<Item>)>, fuel: nat)
    ensures r.None? || r.value.1.Wrong? ==> Continue(sem, code, b, r, fuel) == Stuck
    ensures r.Some? && r.value.1.Return? ==>
              Continue(sem, code, b, r, fuel) == Returned(r.value.1.v, r.value.0.world)
    ensures r.Some? && r.value.1.Goto? ==>
              Continue(sem, code, b, r, fuel) == RunFrom(sem, code, r.value.1.b, b, r.value.0, fuel)
  {
  }
}
