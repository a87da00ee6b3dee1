/** A memory and calls as one meaning of instructions: runs of a function whose
    private allocas are apart, and how a function without accesses to them runs
    the same in memory. */
module ItemRuns {
  import opened Cfg
  import opened Ir
  import opened Exec
  import opened Program

  /** What an operand can be: no value, a value, or the function a call names. */
  datatype Item = Nothing | Holds(x: Val) | Code(fid: nat)

  /** The memory and the output. */
  datatype View = View(mem: Mem, out: Out)

  function ToItem(x: Option<Val>): Item {
    match x
    case Some(y) => Holds(y)
    case None => Nothing
  }

  function AsVal(x: Option<Item>): Option<Val> {
    match x
    case Some(Holds(y)) => Some(y)
    case _ => None
  }

  function AllVals(xs: seq<Item>): Option<seq<Val>> {
    if |xs| == 0 then Some([])
    else
      match (AsVal(Some(xs[0])), AllVals(xs[1..]))
      case (Some(x), Some(ys)) => Some([x] + ys)
      case _ => None
  }

  function ConstItem(args: seq<Val>, v: Value): Item {
    match v
    case Const(n) => Holds(VInt(n))
    case Global(g) => Holds(VPtr(OGlobal(g), 0))
    case Func(f) => Code(f)
    case Argument(no) => if no < |args| then Holds(args[no]) else Nothing
    case _ => Nothing
  }

  function Truth(x: Item): Option<bool> {
    match x
    case Holds(VInt(n)) => Some(n != 0)
    case _ => None
  }

  // ---------- calls that end ----------

  ghost predicate Ends(pr: seq<Proc>, mc: Machine, g: nat, args: seq<Val>, depth: nat, w: View, e: Ended) {
    exists k: nat :: CallProc(pr, mc, g, args, depth, w.mem, w.out, k) == Done(e)
  }

  ghost function CallEnd(pr: seq<Proc>, mc: Machine, g: nat, args: seq<Val>, depth: nat, w: View): Option<Ended> {
    if exists e :: Ends(pr, mc, g, args, depth, w, e) then
      var e :| Ends(pr, mc, g, args, depth, w, e);
      Some(e)
    else None
  }

  /** More fuel does not change a call that is done. */
  lemma {:induction false} MoreFuel(pr: seq<Proc>, mc: Machine, g: nat, args: seq<Val>, depth: nat, mem: Mem, out: Out,
          k: nat, n: nat)
    requires k <= n && CallProc(pr, mc, g, args, depth, mem, out, k).Done?
    ensures CallProc(pr, mc, g, args, depth, mem, out, n) == CallProc(pr, mc, g, args, depth, mem, out, k)
    decreases k, 2
  {
    hide RunBlocks;
    if !pr[g].IsDeclaration() {
      MoreFuelBlocks(pr, mc, pr[g].code, pr[g].g.blocks[0], NULL, Frame(Bind(args, |args|), mem, out), depth, k, n);
    }
  }

  lemma {:induction false} MoreFuelBlocks(pr: seq<Proc>, mc: Machine, code: map<Block, seq<Instr>>, b: Block,
          from: Block, fr: Frame, depth: nat, k: nat, n: nat)
    requires k <= n && RunBlocks(pr, mc, code, b, from, fr, depth, k).Done?
    ensures RunBlocks(pr, mc, code, b, from, fr, depth, n) == RunBlocks(pr, mc, code, b, from, fr, depth, k)
    decreases k, 1
  {
    hide ExecList, EnterBlock, Trim;
    var list := code[b];
    var phis := PhiCount(list);
    var entered := fr.(regs := EnterBlock(list[..phis], from, fr.regs, fr.regs));
    MoreFuelList(pr, mc, list[phis..|list| - 1], entered, depth, k, n);
    var to := ExecList(pr, mc, list[phis..|list| - 1], entered, depth, k).value;
    match Branch(list[|list| - 1], to.regs)
    case JumpTo(s) => MoreFuelBlocks(pr, mc, code, s, b, to, depth, k - 1, n - 1);
    case _ =>
  }

  lemma {:induction false} MoreFuelList(pr: seq<Proc>, mc: Machine, list: seq<Instr>, fr: Frame, depth: nat, k: nat,
          n: nat)
    requires k <= n && ExecList(pr, mc, list, fr, depth, k).Done?
    ensures ExecList(pr, mc, list, fr, depth, n) == ExecList(pr, mc, list, fr, depth, k)
    decreases k, 0, |list|
  {
    hide ExecOne;
    if |list| > 0 {
      MoreFuelOne(pr, mc, list[0], fr, depth, k, n);
      MoreFuelList(pr, mc, list[1..], ExecOne(pr, mc, list[0], fr, depth, k).value, depth, k, n);
    }
  }

  lemma {:induction false} MoreFuelOne(pr: seq<Proc>, mc: Machine, ins: Instr, fr: Frame, depth: nat, k: nat, n: nat)
    requires k <= n && ExecOne(pr, mc, ins, fr, depth, k).Done?
    ensures ExecOne(pr, mc, ins, fr, depth, n) == ExecOne(pr, mc, ins, fr, depth, k)
    decreases k, 0, 0
  {
    hide CallProc, ExecSimple;
    if ins.op.OpCall? {
      var args := LookupAll(fr.regs, ins.operands[1..]).value;
      MoreFuel(pr, mc, ins.operands[0].fid, args, depth + 1, fr.mem, fr.out, k - 1, n - 1);
    }
  }

  /** A call that ends has one end. */
  lemma CallEndIs(pr: seq<Proc>, mc: Machine, g: nat, args: seq<Val>, depth: nat, w: View, k: nat, e: Ended)
    requires CallProc(pr, mc, g, args, depth, w.mem, w.out, k) == Done(e)
    ensures CallEnd(pr, mc, g, args, depth, w) == Some(e)
  {
    hide CallProc;
    assert Ends(pr, mc, g, args, depth, w, e);
    var e' := CallEnd(pr, mc, g, args, depth, w).value;
    var k' := EndFuel(pr, mc, g, args, depth, w);
    if k <= k' {
      MoreFuel(pr, mc, g, args, depth, w.mem, w.out, k, k');
    } else {
      MoreFuel(pr, mc, g, args, depth, w.mem, w.out, k', k);
    }
  }

  lemma EndFuel(pr: seq<Proc>, mc: Machine, g: nat, args: seq<Val>, depth: nat, w: View) returns (k: nat)
    requires CallEnd(pr, mc, g, args, depth, w).Some?
    ensures CallProc(pr, mc, g, args, depth, w.mem, w.out, k) == Done(CallEnd(pr, mc, g, args, depth, w).value)
  {
    hide CallProc;
    assert Ends(pr, mc, g, args, depth, w, CallEnd(pr, mc, g, args, depth, w).value);
    k :| CallProc(pr, mc, g, args, depth, w.mem, w.out, k) == Done(CallEnd(pr, mc, g, args, depth, w).value);
  }

  // ---------- one meaning for the instructions ----------

  /** An instruction of a frame at this depth; calls are those of module pr. */
  ghost function ItemStep(pr: seq<Proc>, mc: Machine, depth: nat, op: OpID, id: Value, xs: seq<Item>, w: View)
      : Option<(Item, View)>
  {
    match op
    case OpAlloca => Some((Holds(VPtr(OLocal(depth, id), 0)), w))
    case OpLoad => ItemLoad(depth, xs, w)
    case OpStore => ItemStore(depth, xs, w)
    case OpGep =>
      if |xs| == 0 then None
      else
        (match (xs[0], AllVals(xs[1..]))
         case (Holds(VPtr(o, i)), Some(ys)) =>
           (match mc.gepIndex(id, ys)
            case Some(k) => Some((Holds(VPtr(o, i + k)), w))
            case None => None)
         case _ => None)
    case OpCall =>
      if |xs| == 0 then None
      else
        (match (xs[0], AllVals(xs[1..]))
         case (Code(g), Some(args)) =>
           (match CallEnd(pr, mc, g, args, depth + 1, w)
            case Some(e) => Some((ToItem(e.result), View(e.mem, e.out)))
            case None => None)
         case _ => None)
    case OpOther(_) =>
      (match AllVals(xs)
       case Some(ys) =>
         (match mc.alu(op, id, ys)
          case Some(x) => Some((Holds(x), w))
          case None => None)
       case None => None)
    case _ => None
  }

  function ItemLoad(depth: nat, xs: seq<Item>, w: View): Option<(Item, View)> {
    if |xs| != 1 then None
    else
      match xs[0]
      case Holds(VPtr(o, i)) =>
        if Live(o, depth) && Cell(o, i) in w.mem then Some((Holds(w.mem[Cell(o, i)]), w)) else None
      case _ => None
  }

  function ItemStore(depth: nat, xs: seq<Item>, w: View): Option<(Item, View)> {
    if |xs| != 2 then None
    else
      match (xs[0], xs[1])
      case (Holds(x), Holds(VPtr(o, i))) =>
        if Live(o, depth) then Some((Nothing, w.(mem := w.mem[Cell(o, i) := x]))) else None
      case _ => None
  }

  /** The meaning for a call with these arguments at this depth. */
  ghost function ItemSem(pr: seq<Proc>, mc: Machine, args: seq<Val>, depth: nat): Sem<Item, View> {
    Sem(v => ConstItem(args, v), Truth, (op, id, xs, w) => ItemStep(pr, mc, depth, op, id, xs, w))
  }

  // ---------- operands ----------

  ghost predicate Agrees(sem: Sem<Item, View>, regs: Regs, items: map<Value, Item>, v: Value) {
    Lookup(regs, v) == AsVal(Eval(sem, items, v))
  }

  /** Operands that have values there have them here. */
  lemma {:induction false} AllAgree(sem: Sem<Item, View>, regs: Regs, items: map<Value, Item>, vs: seq<Value>)
    requires forall v :: v in vs ==> Agrees(sem, regs, items, v)
    ensures LookupAll(regs, vs).Some? ==> EvalAll(sem, items, vs).Some?
    ensures EvalAll(sem, items, vs).Some? ==> AllVals(EvalAll(sem, items, vs).value) == LookupAll(regs, vs)
    ensures EvalAll(sem, items, vs).Some? ==> |EvalAll(sem, items, vs).value| == |vs|
  {
    if |vs| > 0 {
      assert vs[0] in vs && Agrees(sem, regs, items, vs[0]);
      AllAgree(sem, regs, items, vs[1..]);
      if EvalAll(sem, items, vs).Some? {
        assert EvalAll(sem, items, vs).value[1..] == EvalAll(sem, items, vs[1..]).value;
      }
    }
  }

  /** The first operand and the others. */
  lemma EvalAllHead(sem: Sem<Item, View>, items: map<Value, Item>, vs: seq<Value>)
    requires |vs| > 0
    ensures EvalAll(sem, items, vs).Some? <==> Eval(sem, items, vs[0]).Some? && EvalAll(sem, items, vs[1..]).Some?
    ensures EvalAll(sem, items, vs).Some? ==>
              |EvalAll(sem, items, vs).value| > 0
              && Some(EvalAll(sem, items, vs).value[0]) == Eval(sem, items, vs[0])
              && EvalAll(sem, items, vs).value[1..] == EvalAll(sem, items, vs[1..]).value
  {
  }
}
