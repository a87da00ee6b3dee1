/** The instruction graph of one function: values named by the class a dynamic
    cast would find, instructions as opcode plus operand list. */
module Ir {
  import opened Cfg

  /** A value, identified by its address. An instruction result is an Alloca, a
      Gep, a Phi or any other instruction (Inst). A Phi is named by the variable
      it was created for (Null for the blank ones) and its block. */
  datatype Value =
    | Null
    | Const(n: int)
    | Argument(no: nat)
    | Global(gid: nat)
    | Func(fid: nat)
    | Label(block: Block)
    | Alloca(aid: nat)
    | Gep(pid: nat)
    | Inst(iid: nat)
    | Phi(of: Value, at: Block)
  {
    predicate IsInstruction() {
      Alloca? || Gep? || Inst? || Phi?
    }

    /** A phi created for no variable. */
    predicate IsBlank() { Phi? && of == Null }
  }

  datatype OpID = OpRet | OpBr | OpAlloca | OpLoad | OpStore | OpGep | OpCall | OpPhi | OpOther(code: nat)

  datatype Instr = Instr(id: Value, op: OpID, operands: seq<Value>) {
    predicate IsPhi() { op.OpPhi? }
    predicate IsTerminator() { op.OpRet? || op.OpBr? }

    /** The operand counts that the instruction constructors establish. */
    predicate Shaped() {
      match op
      case OpLoad => |operands| == 1
      case OpStore => |operands| == 2
      case OpBr =>
        || (|operands| == 1 && operands[0].Label?)
        || (|operands| == 3 && operands[1].Label? && operands[2].Label?)
      case OpRet => |operands| <= 1
      case _ => true
    }

    /** A load or store whose pointer is directly an alloca. */
    predicate IsCellLoad() { op.OpLoad? && |operands| == 1 && operands[0].Alloca? }
    predicate IsCellStore() { op.OpStore? && |operands| == 2 && operands[1].Alloca? }
    predicate IsCellAccess() { IsCellLoad() || IsCellStore() }

    /** The instruction yields a value that others may use. */
    predicate Defines() { !IsTerminator() && !op.OpStore? }
  }

  /** The instruction lists of a function over its control flow graph. */
  datatype Function = Function(g: Graph, code: map<Block, seq<Instr>>)

  function Targets(t: Instr): seq<Block>
    requires t.Shaped()
  {
    if t.op.OpBr? then
      if |t.operands| == 1 then [t.operands[0].block]
      else [t.operands[1].block, t.operands[2].block]
    else []
  }

  // ---------- substitution ----------

  function Sub(sub: map<Value, Value>, v: Value): Value {
    if v in sub then sub[v] else v
  }

  function SubOperands(sub: map<Value, Value>, vs: seq<Value>): (r: seq<Value>)
    ensures |r| == |vs|
  {
    seq(|vs|, i requires 0 <= i < |vs| => Sub(sub, vs[i]))
  }

  function SubInstr(sub: map<Value, Value>, ins: Instr): Instr {
    ins.(operands := SubOperands(sub, ins.operands))
  }

  function SubList(sub: map<Value, Value>, list: seq<Instr>): (r: seq<Instr>)
    ensures |r| == |list|
  {
    seq(|list|, i requires 0 <= i < |list| => SubInstr(sub, list[i]))
  }
}
