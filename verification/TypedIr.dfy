/** The typed integer and pointer instructions that code generation accepts, and
    their meaning over numbers and bytes. */
module TypedIr {
  import opened Bits
  import opened LoongArch

  datatype Opt<+T> = None | Some(value: T)

  datatype Ty = I1 | I32 | Ptr {
    function Size(): (n: nat)
      ensures n == 1 || n == 4 || n == 8
    {
      match this
      case I1 => 1
      case I32 => 4
      case Ptr => 8
    }
  }

  predicate HasTy(t: Ty, x: int) {
    match t
    case I1 => x == 0 || x == 1
    case I32 => IsInt32(x)
    case Ptr => IsInt64(x)
  }

  /** The type of a value and, for an alloca, the bytes of what it allocates. */
  datatype Decl = Decl(ty: Ty, body: nat)

  datatype Operand = ConstInt(ty: Ty, n: int) | GlobalVar(g: nat) | Name(v: nat)

  datatype BinOp = Add | Sub | Mul | Sdiv
  datatype CmpOp = Ge | Gt | Le | Lt | Eq | Ne

  /** One incoming value of a phi. */
  datatype Pair = Pair(value: Operand, block: int)

  datatype Inst =
    | Binary(id: nat, bop: BinOp, a: Operand, b: Operand)
    | Icmp(id: nat, cop: CmpOp, a: Operand, b: Operand)
    | Zext(id: nat, a: Operand)
    | Alloca(id: nat, size: nat)
    | Load(id: nat, ty: Ty, p: Operand)
    | Store(a: Operand, p: Operand)
    | Gep(id: nat, base: Operand, idxs: seq<Operand>, elem: nat)
    | Phi(id: nat, ty: Ty, pairs: seq<Pair>)
    | Br(target: int)
    | CondBr(c: Operand, yes: int, no: int)
    | Ret(result: Opt<Operand>)
  {
    predicate IsVoid() { Store? || Br? || CondBr? || Ret? }

    /** What a non-void instruction needs in the frame. */
    function Needs(): Decl
      requires !IsVoid()
    {
      match this
      case Binary(_, _, _, _) => Decl(I32, 0)
      case Icmp(_, _, _, _) => Decl(I1, 0)
      case Zext(_, _) => Decl(I32, 0)
      case Alloca(_, n) => Decl(Ptr, n)
      case Load(_, t, _) => Decl(t, 0)
      case Gep(_, _, _, _) => Decl(Ptr, 0)
      case Phi(_, t, _) => Decl(t, 0)
    }
  }

  datatype Arg = Arg(id: nat, ty: Ty)

  /** A function with its blocks in order; decls gives every name's declaration. */
  datatype Fn = Fn(args: seq<Arg>, blocks: seq<int>, code: map<int, seq<Inst>>, decls: map<nat, Decl>)

  /** What an instruction reads; a phi reads on its edges. */
  function Operands(ins: Inst): seq<Operand> {
    match ins
    case Binary(_, _, a, b) => [a, b]
    case Icmp(_, _, a, b) => [a, b]
    case Zext(_, a) => [a]
    case Load(_, _, p) => [p]
    case Store(a, p) => [a, p]
    case Gep(_, base, idxs, _) => [base] + idxs
    case CondBr(c, _, _) => [c]
    case Ret(Some(op)) => [op]
    case _ => []
  }

  // ---------- values ----------

  type Env = map<nat, int>

  datatype IrState = IrState(env: Env, mem: Bytes)

  /** Every value has its declared type. */
  predicate EnvOk(decls: map<nat, Decl>, env: Env) {
    forall v :: v in env ==> v in decls && HasTy(decls[v].ty, env[v])
  }

  /** A well-formed operand of type t. */
  predicate OperandOk(decls: map<nat, Decl>, op: Operand, t: Ty) {
    match op
    case ConstInt(u, n) => u == t && u != Ptr && HasTy(u, n)
    case GlobalVar(_) => t == Ptr
    case Name(v) => v in decls && decls[v].ty == t
  }

  function Eval(sym: nat -> int, env: Env, op: Operand): Opt<int> {
    match op
    case ConstInt(_, n) => Some(n)
    case GlobalVar(g) => Some(Signed64(sym(g)))
    case Name(v) => if v in env then Some(env[v]) else None
  }

  /** Sums, differences and products wrap around; a division has a result only when
      the divisor is not zero and the quotient fits 32 bits. */
  function BinResult(op: BinOp, x: int, y: int): Opt<int> {
    match op
    case Add => Some(Signed32(x + y))
    case Sub => Some(Signed32(x - y))
    case Mul => Some(Signed32(x * y))
    case Sdiv => if y != 0 && IsInt32(Quotient(x, y)) then Some(Quotient(x, y)) else None
  }

  predicate Compare(op: CmpOp, x: int, y: int) {
    match op
    case Ge => x >= y
    case Gt => x > y
    case Le => x <= y
    case Lt => x < y
    case Eq => x == y
    case Ne => x != y
  }

  function Assign(env: Env, v: nat, x: Opt<int>): Env {
    match x
    case Some(n) => env[v := n]
    case None => env - {v}
  }

  // ---------- instructions ----------

  /** Typing and shape: what the instruction constructors and the one-dimensional
      gep builder establish. */
  predicate InstOk(decls: map<nat, Decl>, ins: Inst) {
    && (!ins.IsVoid() ==> ins.id in decls && decls[ins.id] == ins.Needs())
    && match ins
       case Binary(_, _, a, b) => OperandOk(decls, a, I32) && OperandOk(decls, b, I32)
       case Icmp(_, _, a, b) => OperandOk(decls, a, I32) && OperandOk(decls, b, I32)
       case Zext(_, a) => OperandOk(decls, a, I1)
       case Alloca(_, n) => true
       case Load(_, _, p) => OperandOk(decls, p, Ptr)
       case Store(a, p) => (OperandOk(decls, a, I1) || OperandOk(decls, a, I32) || OperandOk(decls, a, Ptr))
           && OperandOk(decls, p, Ptr)
       case Gep(_, base, idxs, elem) =>
         && OperandOk(decls, base, Ptr)
         && (|idxs| == 1 || (|idxs| == 2 && idxs[0] == ConstInt(I32, 0)))
         && OperandOk(decls, idxs[|idxs| - 1], I32)
         && (elem == 1 || elem == 4 || elem == 8)
       case Phi(_, t, pairs) => forall i :: 0 <= i < |pairs| ==> OperandOk(decls, pairs[i].value, t)
       case Br(_) => true
       case CondBr(c, _, _) => OperandOk(decls, c, I1)
       case Ret(r) => r.Some? ==>
           OperandOk(decls, r.value, I1) || OperandOk(decls, r.value, I32) || OperandOk(decls, r.value, Ptr)
  }

  function TypeOf(decls: map<nat, Decl>, op: Operand): Ty {
    match op
    case ConstInt(t, _) => t
    case GlobalVar(_) => Ptr
    case Name(v) => if v in decls then decls[v].ty else I32
  }

  /** One instruction that is neither a phi nor a terminator. An alloca yields the
      address place(id); a load or store must touch free bytes only. */
  ghost function Step(decls: map<nat, Decl>, sym: nat -> int, place: nat -> int, free: int -> bool, ins: Inst,
          st: IrState): Opt<IrState>
  {
    match ins
    case Binary(id, op, a, b) =>
      (match (Eval(sym, st.env, a), Eval(sym, st.env, b))
       case (Some(x), Some(y)) =>
         (match BinResult(op, x, y)
          case Some(z) => Some(st.(env := st.env[id := z]))
          case None => None)
       case _ => None)
    case Icmp(id, op, a, b) =>
      (match (Eval(sym, st.env, a), Eval(sym, st.env, b))
       case (Some(x), Some(y)) => Some(st.(env := st.env[id := if Compare(op, x, y) then 1 else 0]))
       case _ => None)
    case Zext(id, a) =>
      (match Eval(sym, st.env, a)
       case Some(x) => Some(st.(env := st.env[id := x]))
       case None => None)
    case Alloca(id, _) => Some(st.(env := st.env[id := place(id)]))
    case Load(id, t, p) =>
      (match Eval(sym, st.env, p)
       case Some(x) =>
         if AllFree(free, x, t.Size()) && HasTy(t, Read(st.mem, x, t.Size()))
         then Some(st.(env := st.env[id := Read(st.mem, x, t.Size())])) else None
       case None => None)
    case Store(a, p) =>
      (match (Eval(sym, st.env, a), Eval(sym, st.env, p))
       case (Some(x), Some(y)) =>
         if AllFree(free, y, TypeOf(decls,
             a).Size()) then Some(st.(mem := Write(st.mem, y, TypeOf(decls, a).Size(), x))) else None
       case _ => None)
    case Gep(id, base, idxs, elem) =>
      if |idxs| == 0 then None
      else
        (match (Eval(sym, st.env, base), Eval(sym, st.env, idxs[|idxs| - 1]))
         case (Some(x), Some(i)) => Some(st.(env := st.env[id := Signed64(x + elem * i)]))
         case _ => None)
    case _ => None
  }

  ghost predicate AllFree(free: int -> bool, a: int, n: nat) {
    forall b :: a <= b < a + n ==> free(b)
  }

  ghost function Steps(decls: map<nat, Decl>, sym: nat -> int, place: nat -> int, free: int -> bool, list: seq<Inst>,
          st: IrState): Opt<IrState>
    decreases |list|
  {
    if |list| == 0 then Some(st)
    else
      match Step(decls, sym, place, free, list[0], st)
      case None => None
      case Some(st') => Steps(decls, sym, place, free, list[1..], st')
  }
}
