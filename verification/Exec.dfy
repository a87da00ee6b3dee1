/** Running a function. Loads and stores through an alloca address a cell of
    their own; every other effect goes through a parameter that interprets one
    instruction on operand values and the rest of the world. */
module Exec {
  import opened Cfg
  import opened Ir

  datatype Option<+T> = None | Some(value: T)

  /** constOf gives the value of everything that is not an instruction result
      (constants, arguments, globals, functions); truth decides a branch, if the
      value can; step runs one instruction. */
  datatype Sem<!V, !W> = Sem(
    constOf: Value -> V,
    truth: V -> Option<bool>,
    step: (OpID, Value, seq<V>, W) -> Option<(V, W)>)

  datatype State<V, W> = State(regs: map<Value, V>, cells: map<Value, V>, world: W)

  datatype Outcome<V, W> = Timeout | Stuck | Returned(result: Option<V>, world: W)

  function Get<V>(m: map<Value, V>, v: Value): Option<V> {
    if v in m then Some(m[v]) else None
  }

  function Eval<V, W>(sem: Sem<V, W>, regs: map<Value, V>, v: Value): Option<V> {
    if v.IsInstruction() then Get(regs, v) else Some(sem.constOf(v))
  }

  function EvalAll<V, W>(sem: Sem<V, W>, regs: map<Value, V>, vs: seq<Value>): Option<seq<V>> {
    if |vs| == 0 then Some([])
    else
      match (Eval(sem, regs, vs[0]), EvalAll(sem, regs, vs[1..]))
      case (Some(x), Some(xs)) => Some([x] + xs)
      case _ => None
  }

  /** One instruction that is neither a phi nor a terminator. */
  function Step<V, W>(sem: Sem<V, W>, ins: Instr, st: State<V, W>): Option<State<V, W>> {
    if ins.IsCellLoad() then
      if ins.operands[0] in st.cells then Some(st.(regs := st.regs[ins.id := st.cells[ins.operands[0]]])) else None
    else if ins.IsCellStore() then
      match Eval(sem, st.regs, ins.operands[0])
      case Some(x) => Some(st.(cells := st.cells[ins.operands[1] := x]))
      case None => None
    else
      match EvalAll(sem, st.regs, ins.operands)
      case None => None
      case Some(xs) =>
        match sem.step(ins.op, ins.id, xs, st.world)
        case None => None
        case Some((r, w)) => Some(st.(regs := if ins.Defines() then st.regs[ins.id := r] else st.regs, world := w))
  }

  function Steps<V, W>(sem: Sem<V, W>, list: seq<Instr>, st: State<V, W>): Option<State<V, W>> {
    if |list| == 0 then Some(st)
    else
      match Step(sem, list[0], st)
      case None => None
      case Some(st') => Steps(sem, list[1..], st')
  }

  // ---------- phis, evaluated in parallel on block entry ----------

  function PhiCount(list: seq<Instr>): (n: nat)
    ensures n <= |list|
    ensures forall i :: 0 <= i < n ==> list[i].IsPhi()
    ensures n < |list| ==> !list[n].IsPhi()
  {
    if |list| == 0 || !list[0].IsPhi() then 0 else 1 + PhiCount(list[1..])
  }

  /** The value paired with predecessor b, if the phi has a pair for it. */
  function PhiSource(operands: seq<Value>, b: Block): Option<Value> {
    if |operands| < 2 then None
    else if operands[1] == Label(b) then Some(operands[0])
    else PhiSource(operands[2..], b)
  }

  /** The incoming value; a phi without a pair for the edge taken is undefined. */
  function PhiValue<V, W>(sem: Sem<V, W>, regs: map<Value, V>, phi: Instr, from: Block): Option<V> {
    match PhiSource(phi.operands, from)
    case None => None
    case Some(v) => Eval(sem, regs, v)
  }

  function SetReg<V>(regs: map<Value, V>, v: Value, x: Option<V>): map<Value, V> {
    match x
    case Some(n) => regs[v := n]
    case None => regs - {v}
  }

  function EnterPhis<V, W>(sem: Sem<V, W>, phis: seq<Instr>, from: Block, before: map<Value, V>,
          regs: map<Value, V>): map<Value, V>
  {
    if |phis| == 0 then regs
    else EnterPhis(sem, phis[1..], from, before, SetReg(regs, phis[0].id, PhiValue(sem, before, phis[0], from)))
  }

  // ---------- blocks and runs ----------

  /** What the terminator decides: the next block, a return, or a wrong operand. */
  datatype Next<V> = Goto(b: Block) | Return(v: Option<V>) | Wrong

  function Finish<V, W>(sem: Sem<V, W>, t: Instr, regs: map<Value, V>): Next<V> {
    if t.op.OpRet? then
      if |t.operands| == 0 then Return(None)
      else match Eval(sem, regs, t.operands[0]) case Some(x) => Return(Some(x)) case None => Wrong
    else if t.op.OpBr? && t.Shaped() then
      if |t.operands| == 1 then Goto(t.operands[0].block)
      else
        match Eval(sem, regs, t.operands[0])
        case Some(x) =>
          (match sem.truth(x)
           case Some(yes) => Goto(if yes then t.operands[1].block else t.operands[2].block)
           case None => Wrong)
        case None => Wrong
    else Wrong
  }

  /** Run at most fuel blocks, starting at b entered from block from. */
  function RunFrom<V, W>(sem: Sem<V, W>, code: map<Block, seq<Instr>>, b: Block, from: Block, st: State<V, W>,
          fuel: nat): Outcome<V, W>
    decreases fuel
  {
    if fuel == 0 then Timeout
    else if b !in code || |code[b]| == 0 then Stuck
    else
      var list := code[b];
      var n := PhiCount(list);
      var regs := EnterPhis(sem, list[..n], from, st.regs, st.regs);
      if n == |list| then Stuck
      else
        match Steps(sem, list[n..|list| - 1], st.(regs := regs))
        case None => Stuck
        case Some(st') =>
          match Finish(sem, list[|list| - 1], st'.regs)
          case Wrong => Stuck
          case Return(v) => Returned(v, st'.world)
          case Goto(s) => RunFrom(sem, code, s, b, st', fuel - 1)
  }

  /** A call of the function: no register and no cell holds a value yet. */
  function Run<V, W>(sem: Sem<V, W>, f: Function, world: W, fuel: nat): Outcome<V, W>
    requires |f.g.blocks| > 0
  {
    RunFrom(sem, f.code, f.g.Entry(), NULL, State(map[], map[], world), fuel)
  }
}
