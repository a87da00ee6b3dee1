/** The code of the copies does to the slots what the copies do to the values. */
module PhiLowering {
  import opened Bits
  import opened LoongArch
  import opened TypedIr
  import opened Lowering
  import opened LoweringSound
  import opened InstSound
  import opened Copies

  /** The copy is well typed and has its places. */
  ghost predicate CopyOk(c: Ctx, cp: Copy) {
    && HasPlace(c.decls, c.lay.off, cp.src)
    && HasSlot(c.decls, c.lay.off, cp.dst)
    && OperandOk(c.decls, cp.src, c.decls[cp.dst].ty)
  }

  lemma ReadRange(m: Bytes, a: int, t: Ty)
    ensures IsInt64(Read(m, a, t.Size()))
  {
    Sizes();
  }

  /** Loading an operand of unknown value still leaves some number in the register. */
  lemma LoadAny(c: Ctx, sym: nat -> int, ir: IrState, s: State, op: Operand, t: Ty, reg: Reg)
    requires CtxOk(c) && Matches(c, ir, s) && OperandOk(c.decls, op, t) && HasPlace(c.decls, c.lay.off, op) && Temp(reg)
    ensures var stop := Exec(sym, LoadToGreg(c.decls, c.lay.off, op, reg), s);
      stop.next == Fall && Matches(c, ir, stop.s)
  {
    hide Exec, LoadFromStack, LoadLargeInt32, Read, Matches, CtxOk;
    if Eval(sym, ir.env, op).Some? {
      LoadOperand(c, sym, ir, s, op, t, reg);
    } else {
      var v := op.v;
      OffsetRange(c, v);
      AtFrame(c, ir, s);
      LoadSlot(sym, s, c.fp, c.lay.off[v], c.decls[v].ty.Size(), reg);
      ReadRange(s.mem, c.fp + c.lay.off[v], c.decls[v].ty);
      SetTemp(c, ir, s, reg, Read(s.mem, c.fp + c.lay.off[v], c.decls[v].ty.Size()));
    }
  }

  lemma CopySound(c: Ctx, sym: nat -> int, cp: Copy, ir: IrState, s: State)
    requires CtxOk(c) && Matches(c, ir, s) && CopyOk(c, cp)
    ensures KeepsStep(c, sym, CopyCode(c.decls, c.lay.off, cp), s,
        ir.(env := Assign(ir.env, cp.dst, Eval(sym, ir.env, cp.src))))
  {
    hide Exec, Matches, CtxOk, LoadToGreg, StoreResult, Eval;
    var t := c.decls[cp.dst].ty;
    var load := LoadToGreg(c.decls, c.lay.off, cp.src, T0);
    LoadAny(c, sym, ir, s, cp.src, t, T0);
    var s1 := Exec(sym, load, s).s;
    ExecThen(sym, load, StoreResult(c.decls, c.lay.off, cp.dst, T0), s, s1);
    match Eval(sym, ir.env, cp.src)
    case Some(x) =>
      LoadOperand(c, sym, ir, s, cp.src, t, T0);
      StoreName(c, sym, ir, s1, cp.dst, T0, x);
    case None =>
      StoreAny(c, sym, ir, s1, cp.dst, T0);
  }

  ghost predicate CopiesOk(c: Ctx, cs: seq<Copy>) {
    forall i :: 0 <= i < |cs| ==> CopyOk(c, cs[i])
  }

  /** The emitted copies do to the slots what copying in order does to the values. */
  lemma {:induction false} CopiesSound(c: Ctx, sym: nat -> int, cs: seq<Copy>, ir: IrState, s: State)
    requires CtxOk(c) && Matches(c, ir, s) && CopiesOk(c, cs)
    ensures KeepsStep(c, sym, CopiesCode(c.decls, c.lay.off, cs), s, ir.(env := Sequential(sym, ir.env, cs, |cs|)))
    decreases |cs|
  {
    hide Matches, CtxOk, CopyCode, Eval;
    if |cs| > 0 {
      var n := |cs| - 1;
      var front := cs[..n];
      CopiesSound(c, sym, front, ir, s);
      ParallelTakes(sym, ir.env, cs, n, n);
      var code := CopiesCode(c.decls, c.lay.off, front);
      var e := Sequential(sym, ir.env, cs, n);
      var s1 := Exec(sym, code, s).s;
      ExecThen(sym, code, CopyCode(c.decls, c.lay.off, cs[n]), s, s1);
      CopySound(c, sym, cs[n], ir.(env := e), s1);
    }
  }
}
