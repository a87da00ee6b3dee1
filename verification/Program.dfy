/** Whole programs and their meaning with memory and calls. An address names a
    global or an alloca of an active frame, plus an index into that object. */
module Program {
  import opened Cfg
  import opened Ir
  import opened Exec

  datatype ParamType = IntegerParam | FloatParam | PointerParam

  /** A function; without blocks it is a declaration. defs gives the instruction
      behind each instruction value of the function, ptrs its values of pointer type. */
  datatype Proc = Proc(
    name: string,
    params: seq<ParamType>,
    g: Graph,
    code: map<Block, seq<Instr>>,
    defs: map<Value, Instr>,
    ptrs: set<Value>)
  {
    predicate IsDeclaration() { |g.blocks| == 0 }

    /** The blocks have code and the values name their instructions. */
    ghost predicate Ok(functions: nat) {
      && (forall b :: b in g.blocks <==> b in code)
      && (forall b, i :: b in code && 0 <= i < |code[b]| ==> InstrOk(functions, code[b][i]))
      && (forall v :: v in defs ==> v.IsInstruction() && defs[v].id == v && Placed(defs[v]))
    }

    ghost predicate Placed(ins: Instr) {
      exists b :: b in code && ins in code[b]
    }

    predicate InstrOk(functions: nat, ins: Instr) {
      && ins.id in defs
      && defs[ins.id] == ins
      && (ins.op.OpCall? ==> |ins.operands| > 0 && ins.operands[0].Func? && ins.operands[0].fid < functions)
    }
  }

  ghost predicate Ok(pr: seq<Proc>) {
    forall f :: 0 <= f < |pr| ==> pr[f].Ok(|pr|)
  }

  // ---------- values and memory ----------

  datatype Obj = OGlobal(gid: nat) | OLocal(depth: nat, alloca: Value)

  datatype Val = VInt(n: int) | VPtr(obj: Obj, off: int)

  datatype Cell = Cell(obj: Obj, off: int)

  type Mem = map<Cell, Val>

  /** What the program has output so far. */
  type Out = seq<int>

  type Regs = map<Value, Val>

  /** The meaning of the instructions that touch no memory, and of declared functions. */
  datatype Machine = Machine(
    alu: (OpID, Value, seq<Val>) -> Option<Val>,
    gepIndex: (Value, seq<Val>) -> Option<int>,
    ext: (nat, seq<Val>, Mem, Out) -> Option<(Option<Val>, Mem, Out)>)

  /** The object belongs to a frame that is active at this depth, or is global. */
  predicate Live(o: Obj, depth: nat) {
    o.OLocal? ==> o.depth <= depth
  }

  /** No object of a frame at this depth or deeper holds a value. */
  ghost predicate Clean(mem: Mem, depth: nat) {
    forall c :: c in mem ==> !(c.obj.OLocal? && c.obj.depth >= depth)
  }

  /** The memory without the objects of frames at this depth and deeper. */
  function Trim(mem: Mem, depth: nat): Mem {
    map c | c in mem && !(c.obj.OLocal? && c.obj.depth >= depth) :: mem[c]
  }

  function Lookup(regs: Regs, v: Value): Option<Val> {
    match v
    case Const(n) => Some(VInt(n))
    case Global(g) => Some(VPtr(OGlobal(g), 0))
    case _ => if v in regs then Some(regs[v]) else None
  }

  function LookupAll(regs: Regs, vs: seq<Value>): Option<seq<Val>> {
    if |vs| == 0 then Some([])
    else
      match (Lookup(regs, vs[0]), LookupAll(regs, vs[1..]))
      case (Some(x), Some(xs)) => Some([x] + xs)
      case _ => None
  }

  function SetVal(regs: Regs, v: Value, x: Option<Val>): Regs {
    match x
    case Some(y) => regs[v := y]
    case None => regs - {v}
  }

  // ---------- one instruction without calls ----------

  datatype Frame = Frame(regs: Regs, mem: Mem, out: Out)

  datatype Result<+T> = Done(value: T) | Fails | OutOfFuel

  /** Instructions other than phis, calls and terminators. */
  function ExecSimple(mc: Machine, ins: Instr, fr: Frame, depth: nat): Result<Frame> {
    match ins.op
    case OpAlloca => Done(fr.(regs := fr.regs[ins.id := VPtr(OLocal(depth, ins.id), 0)]))
    case OpLoad =>
      if |ins.operands| != 1 then Fails
      else
        (match Lookup(fr.regs, ins.operands[0])
         case Some(VPtr(o, i)) =>
           if Live(o, depth) && Cell(o, i) in fr.mem then Done(fr.(regs := fr.regs[ins.id := fr.mem[Cell(o, i)]]))
               else Fails
         case _ => Fails)
    case OpStore =>
      if |ins.operands| != 2 then Fails
      else
        (match (Lookup(fr.regs, ins.operands[0]), Lookup(fr.regs, ins.operands[1]))
         case (Some(x), Some(VPtr(o, i))) => if Live(o, depth) then Done(fr.(mem := fr.mem[Cell(o, i) := x])) else Fails
         case _ => Fails)
    case OpGep =>
      if |ins.operands| == 0 then Fails
      else
        (match (Lookup(fr.regs, ins.operands[0]), LookupAll(fr.regs, ins.operands[1..]))
         case (Some(VPtr(o, i)), Some(xs)) =>
           (match mc.gepIndex(ins.id, xs)
            case Some(k) => Done(fr.(regs := fr.regs[ins.id := VPtr(o, i + k)]))
            case None => Fails)
         case _ => Fails)
    case OpOther(_) =>
      (match LookupAll(fr.regs, ins.operands)
       case Some(xs) =>
         (match mc.alu(ins.op, ins.id, xs)
          case Some(x) => Done(fr.(regs := fr.regs[ins.id := x]))
          case None => Fails)
       case None => Fails)
    case _ => Fails
  }

  // ---------- phis ----------

  function PhiIn(regs: Regs, phi: Instr, from: Block): Option<Val> {
    match PhiSource(phi.operands, from)
    case None => None
    case Some(v) => Lookup(regs, v)
  }

  /** The phis at the head of a block, all reading the registers before. */
  function EnterBlock(phis: seq<Instr>, from: Block, before: Regs, regs: Regs): Regs {
    if |phis| == 0 then regs
    else EnterBlock(phis[1..], from, before, SetVal(regs, phis[0].id, PhiIn(before, phis[0], from)))
  }

  // ---------- terminators ----------

  datatype Jump = JumpTo(b: Block) | Leave(v: Option<Val>) | Bad

  function Branch(t: Instr, regs: Regs): Jump {
    if t.op.OpRet? then
      if |t.operands| == 0 then Leave(None)
      else match Lookup(regs, t.operands[0]) case Some(x) => Leave(Some(x)) case None => Bad
    else if t.op.OpBr? && t.Shaped() then
      if |t.operands| == 1 then JumpTo(t.operands[0].block)
      else
        match Lookup(regs, t.operands[0])
        case Some(VInt(n)) => JumpTo(if n != 0 then t.operands[1].block else t.operands[2].block)
        case _ => Bad
    else Bad
  }

  function Bind(args: seq<Val>, i: nat): Regs
    requires i <= |args|
  {
    if i == 0 then map[] else Bind(args, i - 1)[Argument(i - 1) := args[i - 1]]
  }

  // ---------- running ----------

  /** What a finished call leaves: its result, the memory and the output. */
  datatype Ended = Ended(result: Option<Val>, mem: Mem, out: Out)

  /** The body of a block; a call runs at the next depth with less fuel. */
  function ExecList(pr: seq<Proc>, mc: Machine, list: seq<Instr>, fr: Frame, depth: nat, fuel: nat): Result<Frame>
    decreases fuel, 0, |list|
  {
    if |list| == 0 then Done(fr)
    else
      match ExecOne(pr, mc, list[0], fr, depth, fuel)
      case Fails => Fails
      case OutOfFuel => OutOfFuel
      case Done(fr') => ExecList(pr, mc, list[1..], fr', depth, fuel)
  }

  function ExecOne(pr: seq<Proc>, mc: Machine, ins: Instr, fr: Frame, depth: nat, fuel: nat): Result<Frame>
    decreases fuel, 0, 0
  {
    if ins.op.OpCall? then
      if |ins.operands| == 0 || !ins.operands[0].Func? then Fails
      else
        match LookupAll(fr.regs, ins.operands[1..])
        case None => Fails
        case Some(args) =>
          if fuel == 0 then OutOfFuel
          else
            match CallProc(pr, mc, ins.operands[0].fid, args, depth + 1, fr.mem, fr.out, fuel - 1)
            case Fails => Fails
            case OutOfFuel => OutOfFuel
            case Done(e) => Done(Frame(SetVal(fr.regs, ins.id, e.result), e.mem, e.out))
    else ExecSimple(mc, ins, fr, depth)
  }

  /** From block b, entered from block from, to the return of the function. */
  function RunBlocks(pr: seq<Proc>, mc: Machine, code: map<Block, seq<Instr>>, b: Block, from: Block, fr: Frame,
          depth: nat, fuel: nat): Result<Ended>
    decreases fuel, 1
  {
    if fuel == 0 then OutOfFuel
    else if b !in code || |code[b]| == 0 then Fails
    else
      var list := code[b];
      var n := PhiCount(list);
      if n == |list| then Fails
      else
        match ExecList(pr, mc, list[n..|list| - 1], fr.(regs := EnterBlock(list[..n], from, fr.regs, fr.regs)), depth,
            fuel)
        case Fails => Fails
        case OutOfFuel => OutOfFuel
        case Done(fr') =>
          match Branch(list[|list| - 1], fr'.regs)
          case Bad => Fails
          case Leave(v) => Done(Ended(v, Trim(fr'.mem, depth), fr'.out))
          case JumpTo(s) => RunBlocks(pr, mc, code, s, b, fr', depth, fuel - 1)
  }

  /** A call: the frame's objects are gone when it returns. */
  function CallProc(pr: seq<Proc>, mc: Machine, fid: nat, args: seq<Val>, depth: nat, mem: Mem, out: Out,
          fuel: nat): Result<Ended>
    decreases fuel, 2
  {
    if fid >= |pr| then Fails
    else if pr[fid].IsDeclaration() then
      match mc.ext(fid, args, mem, out)
      case None => Fails
      case Some((r, mem', out')) => Done(Ended(r, Trim(mem', depth), out'))
    else RunBlocks(pr, mc, pr[fid].code, pr[fid].g.blocks[0], NULL, Frame(Bind(args, |args|), mem, out), depth, fuel)
  }
}
