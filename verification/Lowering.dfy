/** The machine instructions emitted for each typed instruction. */
module Lowering {
  import opened Bits
  import opened LoongArch
  import opened TypedIr

  type Offsets = map<nat, int>

  /** The operand is a constant, a symbol, or has a slot. */
  predicate HasPlace(decls: map<nat, Decl>, off: Offsets, op: Operand) {
    op.Name? ==> op.v in off && op.v in decls
  }

  function LoadFromStack(at: int, n: nat, reg: Reg): seq<Instr> {
    if IsImm12(at) then [Ld(n, reg, FP, at)]
    else LoadLargeInt64(at, reg) + [AddD(reg, FP, reg), Ld(n, reg, reg, 0)]
  }

  function StoreFromGreg(at: int, n: nat, reg: Reg): seq<Instr> {
    if IsImm12(at) then [St(n, reg, FP, at)]
    else LoadLargeInt64(at, T8) + [AddD(T8, FP, T8), St(n, reg, T8, 0)]
  }

  function LoadToGreg(decls: map<nat, Decl>, off: Offsets, op: Operand, reg: Reg): seq<Instr>
    requires HasPlace(decls, off, op)
  {
    match op
    case ConstInt(_, n) => if IsImm12(n) then [AddiW(reg, ZERO, n)] else LoadLargeInt32(n, reg)
    case GlobalVar(g) => [La(reg, g)]
    case Name(v) => LoadFromStack(off[v], decls[v].ty.Size(), reg)
  }

  /** The offset map has the name and the frame knows its size. */
  predicate HasSlot(decls: map<nat, Decl>, off: Offsets, v: nat) {
    v in off && v in decls
  }

  function StoreResult(decls: map<nat, Decl>, off: Offsets, v: nat, reg: Reg): seq<Instr>
    requires HasSlot(decls, off, v)
  {
    StoreFromGreg(off[v], decls[v].ty.Size(), reg)
  }

  function BinaryOp(op: BinOp): Instr {
    match op
    case Add => AddW(T2, T0, T1)
    case Sub => SubW(T2, T0, T1)
    case Mul => MulW(T2, T0, T1)
    case Sdiv => DivW(T2, T0, T1)
  }

  function CompareCode(op: CmpOp): seq<Instr> {
    match op
    case Ge => [Slt(T3, T1, T2), Slti(T0, T3, 1)]
    case Gt => [Slt(T0, T2, T1)]
    case Le => [Slt(T3, T2, T1), Slti(T0, T3, 1)]
    case Lt => [Slt(T0, T1, T2)]
    case Eq => [Slt(T3, T2, T1), Slt(T4, T1, T2), Or(T0, T3, T4), Slti(T0, T0, 1)]
    case Ne => [Slt(T3, T2, T1), Slt(T4, T1, T2), Or(T0, T3, T4)]
  }

  /** The address computed from the slot of an alloca. */
  function SlotAddress(at: int): seq<Instr> {
    if IsImm12(at) then [AddiD(T0, FP, at)]
    else LoadLargeInt64(at, T0) + [AddD(T0, FP, T0)]
  }

  /** What code generation needs of an instruction: a name for every place it
      looks up, and no constant where only the stack is read. */
  predicate Lowerable(decls: map<nat, Decl>, off: Offsets, ins: Inst) {
    && (!ins.IsVoid() ==> HasSlot(decls, off, ins.id))
    && match ins
       case Binary(_, _, a, b) => HasPlace(decls, off, a) && HasPlace(decls, off, b)
       case Icmp(_, _, a, b) => HasPlace(decls, off, a) && HasPlace(decls, off, b)
       case Zext(_, a) => a.Name? && HasPlace(decls, off, a)
       case Alloca(_, _) => true
       case Load(_, _, p) => HasPlace(decls, off, p)
       case Store(a, p) => HasPlace(decls, off, a) && HasPlace(decls, off, p) && (TypeOf(decls, a) == I1 ==> a.Name?)
       case Gep(_, base, idxs, _) => |idxs| > 0 && HasPlace(decls, off, base) && HasPlace(decls, off, GepIndex(idxs))
       case Phi(_, _, _) => true
       case Br(_) => true
       case CondBr(c, _, _) => HasPlace(decls, off, c)
       case Ret(r) => r.Some? ==> HasPlace(decls, off, r.value)
  }

  /** Every name the instruction defines or reads has a slot. */
  predicate AllPlaced(decls: map<nat, Decl>, off: Offsets, ins: Inst) {
    && (!ins.IsVoid() ==> HasSlot(decls, off, ins.id))
    && forall i :: 0 <= i < |Operands(ins)| ==> HasPlace(decls, off, Operands(ins)[i])
  }

  predicate ConstantFlag(ins: Inst) {
    (ins.Zext? && ins.a.ConstInt?) || (ins.Store? && ins.a.ConstInt? && ins.a.ty == I1)
  }

  /** With a slot for every name, code generation fails for exactly the well-formed
      instructions that extend or store a constant flag: it looks the constant up
      among the slots. */
  lemma LowerableIff(decls: map<nat, Decl>, off: Offsets, ins: Inst)
    requires InstOk(decls, ins) && AllPlaced(decls, off, ins)
    ensures Lowerable(decls, off, ins) <==> !ConstantFlag(ins)
  {
    hide OperandOk, HasPlace;
    var ops := Operands(ins);
    match ins
    case Binary(_, _, a, b) => assert ops[0] == a && ops[1] == b;
    case Icmp(_, _, a, b) => assert ops[0] == a && ops[1] == b;
    case Zext(_, a) =>
      assert ops[0] == a;
      FlagKind(decls, a);
    case Load(_, _, p) => assert ops[0] == p;
    case Store(a, p) =>
      assert ops[0] == a && ops[1] == p;
    case Gep(_, base, idxs, _) =>
      assert ops[0] == base && ops[|idxs|] == idxs[|idxs| - 1];
    case CondBr(c, _, _) => assert ops[0] == c;
    case Ret(Some(op)) => assert ops[0] == op;
    case _ =>
  }

  lemma FlagKind(decls: map<nat, Decl>, op: Operand)
    requires OperandOk(decls, op, I1)
    ensures op.ConstInt? || op.Name?
  {
  }

  /** The second index when there are two or more, else the first. */
  function GepIndex(idxs: seq<Operand>): Operand
    requires |idxs| > 0
  {
    if |idxs| > 1 then idxs[1] else idxs[0]
  }

  function ElementSize(elem: nat): int {
    if elem == 1 then 1 else if elem == 4 then 4 else 8
  }

  /** The body of an instruction that is neither a phi nor a terminator. */
  function InstCode(decls: map<nat, Decl>, off: Offsets, ins: Inst): seq<Instr>
    requires Lowerable(decls, off, ins) && !ins.Phi? && !ins.Br? && !ins.CondBr? && !ins.Ret?
  {
    match ins
    case Binary(id, op, a, b) =>
      LoadToGreg(decls, off, a, T0) + LoadToGreg(decls, off, b, T1) + [BinaryOp(op)] + StoreResult(decls, off, id, T2)
    case Icmp(id, op, a, b) =>
      LoadToGreg(decls, off, a, T1) + LoadToGreg(decls, off, b, T2) + CompareCode(op) + StoreResult(decls, off, id, T0)
    case Zext(id, a) =>
      LoadToGreg(decls, off, a, T0) + StoreResult(decls, off, id, T0)
    case Alloca(id, n) =>
      SlotAddress(off[id]) + [AddiD(T0, T0, -(n as int))] + StoreResult(decls, off, id, T0)
    case Load(id, t, p) =>
      LoadToGreg(decls, off, p, T0) + [Ld(t.Size(), T0, T0, 0)] + StoreResult(decls, off, id, T0)
    case Store(a, p) =>
      LoadToGreg(decls, off, p, T1) + LoadToGreg(decls, off, a, T0) + [St(TypeOf(decls, a).Size(), T0, T1, 0)]
    case Gep(id, base, idxs, elem) =>
      LoadToGreg(decls, off, base, T0) + [AddiD(T1, ZERO, 0), AddiD(T1, ZERO, ElementSize(elem))]
      + LoadToGreg(decls, off, GepIndex(idxs), T2) + [MulD(T3, T1, T2), AddD(T0, T0, T3)] + StoreResult(decls, off,
          id, T0)
  }

  // ---------- frames ----------

  function Prologue(size: nat): seq<Instr> {
    if IsImm12(-(size as int)) then
      [St(8, RA, SP, -8), St(8, FP, SP, -16), AddiD(FP, SP, 0), AddiD(SP, SP, -(size as int))]
    else
      LoadLargeInt64(size, T0) + [St(8, RA, SP, -8), St(8, FP, SP, -16), SubD(SP, SP, T0), AddD(FP, SP, T0)]
  }

  function Epilogue(size: nat): seq<Instr> {
    if IsImm12(-(size as int)) then
      [AddiD(SP, SP, size), Ld(8, RA, SP, -8), Ld(8, FP, SP, -16), Jr(RA)]
    else
      LoadLargeInt64(size, T0) + [AddD(SP, SP, T0), Ld(8, RA, SP, -8), Ld(8, FP, SP, -16), Jr(RA)]
  }

  /** Copy the arguments from their registers into their slots. */
  function StoreArgs(decls: map<nat, Decl>, off: Offsets, args: seq<Arg>, n: nat): seq<Instr>
    requires n <= |args| <= 8 && forall i :: 0 <= i < n ==> HasSlot(decls, off, args[i].id)
  {
    if n == 0 then [] else StoreArgs(decls, off, args, n - 1) + StoreResult(decls, off, args[n - 1].id, A0 + (n - 1))
  }

  // ---------- phis ----------

  /** One copy into the slot of a phi. */
  datatype Copy = Copy(dst: nat, src: Operand)

  /** The copy a block emits for one phi of a successor: the first value if the
      first pair names the block, else the second value if there is one. */
  function PhiCopy(phi: Inst, from: int): seq<Copy>
    requires phi.Phi? && |phi.pairs| > 0
  {
    if phi.pairs[0].block == from then [Copy(phi.id, phi.pairs[0].value)]
    else if |phi.pairs| != 1 then [Copy(phi.id, phi.pairs[1].value)]
    else []
  }

  /** Every phi of the list has an incoming pair. */
  predicate PhisFed(list: seq<Inst>) {
    forall i :: 0 <= i < |list| && list[i].Phi? ==> |list[i].pairs| > 0
  }

  /** The copies for the phis among the first n instructions of a successor. */
  function PhiCopies(list: seq<Inst>, from: int, n: nat): seq<Copy>
    requires n <= |list| && PhisFed(list)
  {
    if n == 0 then []
    else PhiCopies(list, from, n - 1) + (if list[n - 1].Phi? then PhiCopy(list[n - 1], from) else [])
  }

  function CopyCode(decls: map<nat, Decl>, off: Offsets, cp: Copy): seq<Instr>
    requires HasPlace(decls, off, cp.src) && HasSlot(decls, off, cp.dst)
  {
    LoadToGreg(decls, off, cp.src, T0) + StoreResult(decls, off, cp.dst, T0)
  }

  function CopiesCode(decls: map<nat, Decl>, off: Offsets, cs: seq<Copy>): seq<Instr>
    requires forall i :: 0 <= i < |cs| ==> HasPlace(decls, off, cs[i].src) && HasSlot(decls, off, cs[i].dst)
  {
    if |cs| == 0 then []
    else CopiesCode(decls, off, cs[..|cs| - 1]) + CopyCode(decls, off, cs[|cs| - 1])
  }

  // ---------- terminators ----------

  function TermCode(decls: map<nat, Decl>, off: Offsets, size: nat, retTy: Opt<Ty>, t: Inst): seq<Instr>
    requires Lowerable(decls, off, t) && (t.Br? || t.CondBr? || t.Ret?)
  {
    match t
    case Br(l) => [B(l)]
    case CondBr(c, yes, no) => LoadToGreg(decls, off, c, T0) + [Beqz(T0, no), B(yes)]
    case Ret(r) => RetValue(decls, off, retTy, r) + Epilogue(size)
  }

  /** A 32-bit or pointer result goes to $a0, a void return clears it; other
      return types leave it alone. */
  function RetValue(decls: map<nat, Decl>, off: Offsets, retTy: Opt<Ty>, r: Opt<Operand>): seq<Instr>
    requires r.Some? ==> HasPlace(decls, off, r.value)
  {
    match r
    case None => [AddiD(A0, ZERO, 0)]
    case Some(op) =>
      if retTy == Some(I32) || retTy == Some(Ptr) then LoadToGreg(decls, off, op, A0) else []
  }
}
