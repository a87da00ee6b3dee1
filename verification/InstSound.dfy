/** One lemma for each kind of typed instruction: its code keeps the machine in step. */
module InstSound {
  import opened Bits
  import opened LoongArch
  import opened TypedIr
  import opened FrameLayout
  import opened Lowering
  import opened LoweringSound

  /** Where the body of an alloca begins. */
  ghost function Place(c: Ctx): nat -> int {
    id => if id in c.lay.off && id in c.decls then c.fp + Low(c.decls, c.lay.off, id) else 0
  }

  /** Running code falls through to its end and keeps the machine in step with ir. */
  ghost predicate KeepsStep(c: Ctx, sym: nat -> int, code: seq<Instr>, s: State, ir: IrState) {
    var stop := Exec(sym, code, s);
    stop.next == Fall && Matches(c, ir, stop.s)
  }

  lemma ExecThen(sym: nat -> int, a: seq<Instr>, b: seq<Instr>, s: State, s1: State)
    requires Exec(sym, a, s) == Stop(s1, Fall)
    ensures Exec(sym, a + b, s) == Exec(sym, b, s1)
  {
    hide Exec;
    ExecConcat(sym, a, b, s);
  }

  /** The operation on two 32-bit numbers in $t0 and $t1. */
  lemma OperationSound(sym: nat -> int, op: BinOp, s: State, x: int, y: int)
    requires s.Get(T0) == x && s.Get(T1) == y && IsInt32(x) && IsInt32(y) && BinResult(op, x, y).Some?
    ensures Effect(sym, BinaryOp(op), s) == s.Set(T2, BinResult(op, x, y).value) && IsInt32(BinResult(op, x, y).value)
    ensures Straight(BinaryOp(op))
  {
    hide Signed32, Quotient;
  }

  /** The operands of a well-typed operation are 32-bit numbers. */
  lemma OperandRange(c: Ctx, sym: nat -> int, ir: IrState, s: State, op: Operand)
    requires Matches(c, ir, s) && OperandOk(c.decls, op, I32) && Eval(sym, ir.env, op).Some?
    ensures IsInt32(Eval(sym, ir.env, op).value)
  {
    hide SlotsHold, MemAgrees, Saved;
  }

  lemma BinarySound(c: Ctx, sym: nat -> int, ins: Inst, ir: IrState, s: State)
    requires CtxOk(c) && Matches(c, ir, s) && ins.Binary? && InstOk(c.decls, ins) && Lowerable(c.decls, c.lay.off, ins)
    requires Step(c.decls, sym, Place(c), Free(c), ins, ir).Some?
    ensures KeepsStep(c, sym, InstCode(c.decls, c.lay.off, ins), s,
        Step(c.decls, sym, Place(c), Free(c), ins, ir).value)
  {
    hide Exec, Matches, LoadToGreg, StoreResult, CtxOk, Eval, Free, Place, BinResult, BinaryOp, Effect;
    var x, y := Eval(sym, ir.env, ins.a).value, Eval(sym, ir.env, ins.b).value;
    var la, lb, op := LoadToGreg(c.decls, c.lay.off, ins.a, T0), LoadToGreg(c.decls, c.lay.off, ins.b, T1),
        BinaryOp(ins.bop);
    LoadOperand(c, sym, ir, s, ins.a, I32, T0);
    var s1 := s.Set(T0, x);
    LoadOperand(c, sym, ir, s1, ins.b, I32, T1);
    var s2 := s1.Set(T1, y);
    ExecThen(sym, la, lb, s, s1);
    ExecThen(sym, la + lb, [op], s, s2);
    OperandRange(c, sym, ir, s, ins.a);
    OperandRange(c, sym, ir, s, ins.b);
    OperationSound(sym, ins.bop, s2, x, y);
    ExecOne(sym, op, s2);
    var v := BinResult(ins.bop, x, y).value;
    var s3 := s2.Set(T2, v);
    SetTemp(c, ir, s2, T2, v);
    ExecThen(sym, la + lb + [op], StoreResult(c.decls, c.lay.off, ins.id, T2), s, s3);
    StoreName(c, sym, ir, s3, ins.id, T2, v);
  }

  lemma ZextSound(c: Ctx, sym: nat -> int, ins: Inst, ir: IrState, s: State)
    requires CtxOk(c) && Matches(c, ir, s) && ins.Zext? && InstOk(c.decls, ins) && Lowerable(c.decls, c.lay.off, ins)
    requires Step(c.decls, sym, Place(c), Free(c), ins, ir).Some?
    ensures KeepsStep(c, sym, InstCode(c.decls, c.lay.off, ins), s,
        Step(c.decls, sym, Place(c), Free(c), ins, ir).value)
  {
    hide Exec, Matches, LoadToGreg, StoreResult, CtxOk, Eval, Free, Place;
    var x := Eval(sym, ir.env, ins.a).value;
    LoadOperand(c, sym, ir, s, ins.a, I1, T0);
    var s1 := s.Set(T0, x);
    ExecThen(sym, LoadToGreg(c.decls, c.lay.off, ins.a, T0), StoreResult(c.decls, c.lay.off, ins.id, T0), s, s1);
    StoreName(c, sym, ir, s1, ins.id, T0, x);
  }

  // ---------- comparisons ----------

  lemma OrStep(x: int, y: int, n: nat)
    requires n > 0
    ensures OrBits(x, y, n) == 2 * OrBits(x / 2, y / 2, n - 1) + (if x % 2 == 1 || y % 2 == 1 then 1 else 0)
  {
  }

  lemma OrBit(x: int, y: int)
    requires (x == 0 || x == 1) && (y == 0 || y == 1)
    ensures OrBits(x, y, 64) == if x == 1 || y == 1 then 1 else 0
  {
    hide Pow2, OrBits;
    OrStep(x, y, 64);
    OrZero(0, 63);
  }

  /** Each comparison leaves its answer in $t0, the others only in temporaries. */
  lemma CompareSound(c: Ctx, sym: nat -> int, op: CmpOp, ir: IrState, s: State, x: int, y: int)
    requires Matches(c, ir, s) && s.Get(T1) == x && s.Get(T2) == y
    ensures var stop := Exec(sym, CompareCode(op), s);
      stop.next == Fall && Matches(c, ir, stop.s) && stop.s.Get(T0) == if Compare(op, x, y) then 1 else 0
  {
    hide Exec, Matches, OrBits;
    var lt, gt := if x < y then 1 else 0, if y < x then 1 else 0;
    OrBit(gt, lt);
    match op
    case Ge => SetTwo(c, sym, Slt(T3, T1, T2), Slti(T0, T3, 1), ir, s, lt, 1 - lt);
    case Le => SetTwo(c, sym, Slt(T3, T2, T1), Slti(T0, T3, 1), ir, s, gt, 1 - gt);
    case Gt => SetOne(c, sym, Slt(T0, T2, T1), ir, s, gt);
    case Lt => SetOne(c, sym, Slt(T0, T1, T2), ir, s, lt);
    case Eq => EqualSound(c, sym, ir, s, x, y);
    case Ne => UnequalSound(c, sym, ir, s, x, y);
  }

  lemma SetOne(c: Ctx, sym: nat -> int, a: Instr, ir: IrState, s: State, x: int)
    requires Matches(c, ir, s) && Straight(a) && Effect(sym, a, s) == s.Set(T0, x) && IsInt64(x)
    ensures var stop := Exec(sym, [a], s); stop.next == Fall && Matches(c, ir, stop.s) && stop.s.Get(T0) == x
  {
    hide Exec, Matches, Effect;
    ExecOne(sym, a, s);
    SetTemp(c, ir, s, T0, x);
  }

  lemma SetTwo(c: Ctx, sym: nat -> int, a: Instr, b: Instr, ir: IrState, s: State, x: int, y: int)
    requires Matches(c, ir, s) && Straight(a) && Straight(b) && Effect(sym, a, s) == s.Set(T3, x) && IsInt64(x)
    requires Effect(sym, b, s.Set(T3, x)) == s.Set(T3, x).Set(T0, y) && IsInt64(y)
    ensures var stop := Exec(sym, [a, b], s); stop.next == Fall && Matches(c, ir, stop.s) && stop.s.Get(T0) == y
  {
    hide Exec, Matches, Effect;
    ExecTwo(sym, a, b, s);
    SetTemp(c, ir, s, T3, x);
    SetTemp(c, ir, s.Set(T3, x), T0, y);
  }

  lemma UnequalSound(c: Ctx, sym: nat -> int, ir: IrState, s: State, x: int, y: int)
    requires Matches(c, ir, s) && s.Get(T1) == x && s.Get(T2) == y
    ensures var stop := Exec(sym, CompareCode(Ne), s);
      stop.next == Fall && Matches(c, ir, stop.s) && stop.s.Get(T0) == if x != y then 1 else 0
  {
    hide Exec, Matches, OrBits;
    var lt, gt := if x < y then 1 else 0, if y < x then 1 else 0;
    OrBit(gt, lt);
    var a, b, d := Slt(T3, T2, T1), Slt(T4, T1, T2), Or(T0, T3, T4);
    var s1 := s.Set(T3, gt);
    var s2 := s1.Set(T4, lt);
    ExecTwo(sym, a, b, s);
    assert CompareCode(Ne) == [a, b] + [d];
    ExecThen(sym, [a, b], [d], s, s2);
    SetTemp(c, ir, s, T3, gt);
    SetTemp(c, ir, s1, T4, lt);
    SetOne(c, sym, d, ir, s2, if x != y then 1 else 0);
  }

  lemma EqualSound(c: Ctx, sym: nat -> int, ir: IrState, s: State, x: int, y: int)
    requires Matches(c, ir, s) && s.Get(T1) == x && s.Get(T2) == y
    ensures var stop := Exec(sym, CompareCode(Eq), s);
      stop.next == Fall && Matches(c, ir, stop.s) && stop.s.Get(T0) == if x == y then 1 else 0
  {
    hide Exec, Matches;
    UnequalSound(c, sym, ir, s, x, y);
    var stop := Exec(sym, CompareCode(Ne), s);
    assert CompareCode(Eq) == CompareCode(Ne) + [Slti(T0, T0, 1)];
    ExecThen(sym, CompareCode(Ne), [Slti(T0, T0, 1)], s, stop.s);
    SetOne(c, sym, Slti(T0, T0, 1), ir, stop.s, if x == y then 1 else 0);
  }

  lemma IcmpSound(c: Ctx, sym: nat -> int, ins: Inst, ir: IrState, s: State)
    requires CtxOk(c) && Matches(c, ir, s) && ins.Icmp? && InstOk(c.decls, ins) && Lowerable(c.decls, c.lay.off, ins)
    requires Step(c.decls, sym, Place(c), Free(c), ins, ir).Some?
    ensures KeepsStep(c, sym, InstCode(c.decls, c.lay.off, ins), s,
        Step(c.decls, sym, Place(c), Free(c), ins, ir).value)
  {
    hide Exec, Matches, LoadToGreg, StoreResult, CtxOk, Eval, CompareCode, Compare, Free, Place;
    var x, y := Eval(sym, ir.env, ins.a).value, Eval(sym, ir.env, ins.b).value;
    var la, lb, cmp := LoadToGreg(c.decls, c.lay.off, ins.a, T1), LoadToGreg(c.decls, c.lay.off, ins.b, T2),
        CompareCode(ins.cop);
    LoadOperand(c, sym, ir, s, ins.a, I32, T1);
    var s1 := s.Set(T1, x);
    LoadOperand(c, sym, ir, s1, ins.b, I32, T2);
    var s2 := s1.Set(T2, y);
    ExecThen(sym, la, lb, s, s1);
    ExecThen(sym, la + lb, cmp, s, s2);
    CompareSound(c, sym, ins.cop, ir, s2, x, y);
    var v := if Compare(ins.cop, x, y) then 1 else 0;
    var s3 := Exec(sym, cmp, s2).s;
    ExecThen(sym, la + lb + cmp, StoreResult(c.decls, c.lay.off, ins.id, T0), s, s3);
    StoreName(c, sym, ir, s3, ins.id, T0, v);
  }

  // ---------- memory ----------

  /** The address of a slot is computed in $t0, in the short and the long form. */
  lemma SlotAddressSound(sym: nat -> int, s: State, fp: int, at: int)
    requires s.Get(FP) == fp && IsInt64(at) && IsInt64(fp + at)
    ensures Exec(sym, SlotAddress(at), s) == Stop(s.Set(T0, fp + at), Fall)
  {
    hide Exec, LoadLargeInt64;
    if IsImm12(at) {
      ExecOne(sym, AddiD(T0, FP, at), s);
    } else {
      LoadLargeInt64Exact(sym, at, T0, s);
      ExecThen(sym, LoadLargeInt64(at, T0), [AddD(T0, FP, T0)], s, s.Set(T0, at));
      ExecOne(sym, AddD(T0, FP, T0), s.Set(T0, at));
    }
  }

  lemma AllocaSound(c: Ctx, sym: nat -> int, ins: Inst, ir: IrState, s: State)
    requires CtxOk(c) && Matches(c, ir, s) && ins.Alloca? && InstOk(c.decls, ins) && Lowerable(c.decls, c.lay.off, ins)
    ensures Step(c.decls, sym, Place(c), Free(c), ins, ir).Some?
    ensures KeepsStep(c, sym, InstCode(c.decls, c.lay.off, ins), s,
        Step(c.decls, sym, Place(c), Free(c), ins, ir).value)
  {
    hide Exec, Matches, StoreResult, SlotAddress, Free;
    OffsetRange(c, ins.id);
    AtFrame(c, ir, s);
    var at := c.lay.off[ins.id];
    var down := AddiD(T0, T0, -(ins.size as int));
    SlotAddressSound(sym, s, c.fp, at);
    var s1 := s.Set(T0, c.fp + at);
    SetTemp(c, ir, s, T0, c.fp + at);
    ExecThen(sym, SlotAddress(at), [down], s, s1);
    ExecOne(sym, down, s1);
    var x := c.fp + at - ins.size;
    assert x == Place(c)(ins.id) && 0 <= x;
    var s2 := s1.Set(T0, x);
    SetTemp(c, ir, s1, T0, x);
    ExecThen(sym, SlotAddress(at) + [down], StoreResult(c.decls, c.lay.off, ins.id, T0), s, s2);
    StoreName(c, sym, ir, s2, ins.id, T0, x);
  }

  lemma LoadSound(c: Ctx, sym: nat -> int, ins: Inst, ir: IrState, s: State)
    requires CtxOk(c) && Matches(c, ir, s) && ins.Load? && InstOk(c.decls, ins) && Lowerable(c.decls, c.lay.off, ins)
    requires Step(c.decls, sym, Place(c), Free(c), ins, ir).Some?
    ensures KeepsStep(c, sym, InstCode(c.decls, c.lay.off, ins), s,
        Step(c.decls, sym, Place(c), Free(c), ins, ir).value)
  {
    hide Exec, Matches, LoadToGreg, StoreResult, CtxOk, Eval, Read, AllFree, Free, Place;
    var p := Eval(sym, ir.env, ins.p).value;
    var n := ins.ty.Size();
    LoadOperand(c, sym, ir, s, ins.p, Ptr, T0);
    var s1 := s.Set(T0, p);
    FreeRead(c, ir, s1, p, n);
    var x := Read(ir.mem, p, n);
    var ld := Ld(n, T0, T0, 0);
    ExecThen(sym, LoadToGreg(c.decls, c.lay.off, ins.p, T0), [ld], s, s1);
    ExecOne(sym, ld, s1);
    TypedIs64(ins.ty, x);
    var s2 := s1.Set(T0, x);
    SetTemp(c, ir, s1, T0, x);
    ExecThen(sym, LoadToGreg(c.decls, c.lay.off, ins.p, T0) + [ld], StoreResult(c.decls, c.lay.off, ins.id, T0), s, s2);
    StoreName(c, sym, ir, s2, ins.id, T0, x);
  }

  lemma StoreSound(c: Ctx, sym: nat -> int, ins: Inst, ir: IrState, s: State)
    requires CtxOk(c) && Matches(c, ir, s) && ins.Store? && InstOk(c.decls, ins) && Lowerable(c.decls, c.lay.off, ins)
    requires Step(c.decls, sym, Place(c), Free(c), ins, ir).Some?
    ensures KeepsStep(c, sym, InstCode(c.decls, c.lay.off, ins), s,
        Step(c.decls, sym, Place(c), Free(c), ins, ir).value)
  {
    hide Exec, Matches, LoadToGreg, CtxOk, Eval, Write, AllFree, Free, Place;
    var x, p := Eval(sym, ir.env, ins.a).value, Eval(sym, ir.env, ins.p).value;
    var t := TypeOf(c.decls, ins.a);
    var lp, la, st := LoadToGreg(c.decls, c.lay.off, ins.p, T1), LoadToGreg(c.decls, c.lay.off, ins.a, T0),
        St(t.Size(), T0, T1, 0);
    LoadOperand(c, sym, ir, s, ins.p, Ptr, T1);
    var s1 := s.Set(T1, p);
    LoadOperand(c, sym, ir, s1, ins.a, t, T0);
    var s2 := s1.Set(T0, x);
    ExecThen(sym, lp, la, s, s1);
    ExecThen(sym, lp + la, [st], s, s2);
    ExecOne(sym, st, s2);
    FreeWrite(c, ir, s2, p, t.Size(), x);
  }

  /** The element size in $t1. */
  lemma GepSize(c: Ctx, sym: nat -> int, elem: nat, ir: IrState, s: State)
    requires Matches(c, ir, s) && (elem == 1 || elem == 4 || elem == 8)
    ensures Exec(sym, [AddiD(T1, ZERO, 0), AddiD(T1, ZERO, ElementSize(elem))], s) == Stop(s.Set(T1, elem), Fall)
    ensures Matches(c, ir, s.Set(T1, elem))
  {
    hide Exec, Matches;
    var clear, size := AddiD(T1, ZERO, 0), AddiD(T1, ZERO, ElementSize(elem));
    ExecTwo(sym, clear, size, s);
    SetSet(s, T1, 0, elem);
    SetTemp(c, ir, s, T1, elem);
  }

  /** Base plus scaled index. */
  lemma GepAddress(c: Ctx, sym: nat -> int, elem: nat, i: int, ir: IrState, s: State)
    requires Matches(c, ir, s) && (elem == 1 || elem == 4 || elem == 8) && IsInt32(i) && s.Get(T1) == elem
        && s.Get(T2) == i
    ensures var y := Signed64(s.Get(T0) + elem * i);
      var s2 := s.Set(T3, elem * i).Set(T0, y);
      Exec(sym, [MulD(T3, T1, T2), AddD(T0, T0, T3)], s) == Stop(s2, Fall) && Matches(c, ir, s2)
  {
    hide Exec, Matches;
    ExecTwo(sym, MulD(T3, T1, T2), AddD(T0, T0, T3), s);
    assert IsInt64(elem * i);
    var s1 := s.Set(T3, elem * i);
    SetTemp(c, ir, s, T3, elem * i);
    SetTemp(c, ir, s1, T0, Signed64(s.Get(T0) + elem * i));
  }

  lemma GepSound(c: Ctx, sym: nat -> int, ins: Inst, ir: IrState, s: State)
    requires CtxOk(c) && Matches(c, ir, s) && ins.Gep? && InstOk(c.decls, ins) && Lowerable(c.decls, c.lay.off, ins)
    requires Step(c.decls, sym, Place(c), Free(c), ins, ir).Some?
    ensures KeepsStep(c, sym, InstCode(c.decls, c.lay.off, ins), s,
        Step(c.decls, sym, Place(c), Free(c), ins, ir).value)
  {
    hide Exec, Matches, LoadToGreg, StoreResult, CtxOk, Eval, Free, Place, Effect, Signed64, ElementSize;
    var idx := GepIndex(ins.idxs);
    var x, i := Eval(sym, ir.env, ins.base).value, Eval(sym, ir.env, idx).value;
    var lb, li := LoadToGreg(c.decls, c.lay.off, ins.base, T0), LoadToGreg(c.decls, c.lay.off, idx, T2);
    var size := [AddiD(T1, ZERO, 0), AddiD(T1, ZERO, ElementSize(ins.elem))];
    var address := [MulD(T3, T1, T2), AddD(T0, T0, T3)];
    LoadOperand(c, sym, ir, s, ins.base, Ptr, T0);
    var s1 := s.Set(T0, x);
    ExecThen(sym, lb, size, s, s1);
    GepSize(c, sym, ins.elem, ir, s1);
    var s2 := s1.Set(T1, ins.elem);
    ExecThen(sym, lb + size, li, s, s2);
    LoadOperand(c, sym, ir, s2, idx, I32, T2);
    var s3 := s2.Set(T2, i);
    ExecThen(sym, lb + size + li, address, s, s3);
    GepAddress(c, sym, ins.elem, i, ir, s3);
    var y := Signed64(x + ins.elem * i);
    var s5 := s3.Set(T3, ins.elem * i).Set(T0, y);
    ExecThen(sym, lb + size + li + address, StoreResult(c.decls, c.lay.off, ins.id, T0), s, s5);
    StoreName(c, sym, ir, s5, ins.id, T0, y);
  }

  /** Whatever the instruction, its code keeps the machine in step. */
  lemma StepSound(c: Ctx, sym: nat -> int, ins: Inst, ir: IrState, s: State)
    requires CtxOk(c) && Matches(c, ir, s) && InstOk(c.decls, ins) && Lowerable(c.decls, c.lay.off, ins)
    requires !ins.Phi? && !ins.Br? && !ins.CondBr? && !ins.Ret?
    requires Step(c.decls, sym, Place(c), Free(c), ins, ir).Some?
    ensures KeepsStep(c, sym, InstCode(c.decls, c.lay.off, ins), s,
        Step(c.decls, sym, Place(c), Free(c), ins, ir).value)
  {
    hide *;
    match ins
    case Binary(_, _, _, _) => BinarySound(c, sym, ins, ir, s);
    case Icmp(_, _, _, _) => IcmpSound(c, sym, ins, ir, s);
    case Zext(_, _) => ZextSound(c, sym, ins, ir, s);
    case Alloca(_, _) => AllocaSound(c, sym, ins, ir, s);
    case Load(_, _, _) => LoadSound(c, sym, ins, ir, s);
    case Store(_, _) => StoreSound(c, sym, ins, ir, s);
    case Gep(_, _, _, _) => GepSound(c, sym, ins, ir, s);
    case _ =>
  }
}
