/** The code of one instruction does to the frame slots and the memory what the
    instruction does to the values and the memory. */
module LoweringSound {
  import opened Bits
  import opened LoongArch
  import opened TypedIr
  import opened FrameLayout
  import opened Lowering

  /** A call in progress: its frame pointer and the values saved for the caller. */
  datatype Ctx = Ctx(decls: map<nat, Decl>, lay: Layout, fp: int, ra: int, oldFp: int)

  /** The frame is laid out and lies within the positive addresses. */
  ghost predicate CtxOk(c: Ctx) {
    && Placed(c.decls, c.lay.off, c.lay.size)
    && PROLOGUE_OFFSET_BASE <= c.lay.size <= c.fp < TWO_63
  }

  /** The byte is part of a slot or of the saved registers. */
  ghost predicate Reserved(c: Ctx, a: int) {
    InSlot(c.decls, c.lay.off, c.fp, a) || c.fp - 16 <= a < c.fp
  }

  ghost function Free(c: Ctx): int -> bool {
    a => !Reserved(c, a)
  }

  /** The slots hold the values. */
  ghost predicate SlotsHold(c: Ctx, env: Env, mem: Bytes) {
    forall v :: v in env ==> SlotHolds(c, v, env[v], mem)
  }

  ghost predicate SlotHolds(c: Ctx, v: nat, x: int, mem: Bytes) {
    v in c.lay.off && v in c.decls && Read(mem, c.fp + c.lay.off[v], c.decls[v].ty.Size()) == x
  }

  /** Outside slots and saved registers the two memories agree. */
  ghost predicate MemAgrees(c: Ctx, ir: Bytes, mem: Bytes) {
    forall a :: !Reserved(c, a) ==> ByteAt(mem, a) == ByteAt(ir, a)
  }

  ghost predicate Saved(c: Ctx, mem: Bytes) {
    Read(mem, c.fp - 8, 8) == c.ra && Read(mem, c.fp - 16, 8) == c.oldFp
  }

  /** The machine is in step with the typed instructions. */
  ghost predicate Matches(c: Ctx, ir: IrState, s: State) {
    && s.Ok()
    && s.Get(FP) == c.fp
    && s.Get(SP) == c.fp - c.lay.size
    && EnvOk(c.decls, ir.env)
    && SlotsHold(c, ir.env, s.mem)
    && MemAgrees(c, ir.mem, s.mem)
    && Saved(c, s.mem)
  }

  // ---------- registers ----------

  predicate Temp(r: Reg) {
    r != ZERO && r != SP && r != FP
  }

  lemma SetTemp(c: Ctx, ir: IrState, s: State, r: Reg, x: int)
    requires Matches(c, ir, s) && Temp(r) && IsInt64(x)
    ensures Matches(c, ir, s.Set(r, x))
  {
  }

  lemma SetSet(s: State, r: Reg, x: int, y: int)
    ensures s.Set(r, x).Set(r, y) == s.Set(r, y)
  {
  }

  lemma TypedIs64(t: Ty, x: int)
    requires HasTy(t, x)
    ensures IsInt64(x) && Fits(x, t.Size())
  {
    Sizes();
  }

  // ---------- memory ----------

  lemma FreeMissesSlot(c: Ctx, v: nat, a: int)
    requires CtxOk(c) && v in c.lay.off && !Reserved(c, a)
    ensures a < c.fp + c.lay.off[v] || c.fp + c.lay.off[v] + c.decls[v].ty.Size() <= a
  {
    assert c.fp + c.lay.off[v] <= a < c.fp + High(c.decls, c.lay.off, v) ==> InSlot(c.decls, c.lay.off, c.fp, a);
  }

  /** Writing a slot loses that value and nothing else. */
  lemma SlotClobber(c: Ctx, ir: IrState, s: State, v: nat, x: int)
    requires CtxOk(c) && Matches(c, ir, s) && v in c.lay.off
    ensures Matches(c, ir.(env := ir.env - {v}), s.(mem := Write(s.mem, c.fp + c.lay.off[v], c.decls[v].ty.Size(), x)))
  {
    hide Write, Read, ByteAt, Ty.Size, HasTy;
    var at, n := c.fp + c.lay.off[v], c.decls[v].ty.Size();
    var mem := Write(s.mem, at, n, x);
    forall w | w in ir.env && w != v ensures SlotHolds(c, w, ir.env[w], mem) {
      assert SlotHolds(c, w, ir.env[w], s.mem);
      assert Apart(c.decls, c.lay.off, v, w);
      ReadElsewhere(s.mem, at, n, x, c.fp + c.lay.off[w], c.decls[w].ty.Size());
    }
    forall a | !Reserved(c, a) ensures ByteAt(mem, a) == ByteAt(ir.mem, a) {
      FreeMissesSlot(c, v, a);
      WriteElsewhere(s.mem, at, n, x, a);
    }
    assert High(c.decls, c.lay.off, v) <= -16;
    ReadElsewhere(s.mem, at, n, x, c.fp - 8, 8);
    ReadElsewhere(s.mem, at, n, x, c.fp - 16, 8);
  }

  /** Writing a slot with a value of its type sets that value. */
  lemma SlotWrite(c: Ctx, ir: IrState, s: State, v: nat, x: int)
    requires CtxOk(c) && Matches(c, ir, s) && v in c.lay.off && HasTy(c.decls[v].ty, x)
    ensures Matches(c, ir.(env := ir.env[v := x]),
        s.(mem := Write(s.mem, c.fp + c.lay.off[v], c.decls[v].ty.Size(), x)))
  {
    hide Write, Read, ByteAt, Ty.Size, HasTy, MemAgrees, Saved;
    SlotClobber(c, ir, s, v, x);
    var at, n := c.fp + c.lay.off[v], c.decls[v].ty.Size();
    TypedIs64(c.decls[v].ty, x);
    ReadBack(s.mem, at, n, x);
    var mem := Write(s.mem, at, n, x);
    var env := ir.env[v := x];
    forall w | w in env ensures SlotHolds(c, w, env[w], mem) {
      if w != v {
        assert w in ir.env - {v};
        assert SlotHolds(c, w, (ir.env - {v})[w], mem);
      }
    }
  }

  /** Writing free bytes leaves every slot and the saved registers alone. */
  lemma FreeWrite(c: Ctx, ir: IrState, s: State, a: int, n: nat, x: int)
    requires CtxOk(c) && Matches(c, ir, s) && AllFree(Free(c), a, n)
    ensures Matches(c, ir.(mem := Write(ir.mem, a, n, x)), s.(mem := Write(s.mem, a, n, x)))
  {
    hide Write, Read, Ty.Size, HasTy, ByteAt;
    var mem, irMem := Write(s.mem, a, n, x), Write(ir.mem, a, n, x);
    forall w | w in ir.env ensures SlotHolds(c, w, ir.env[w], mem) {
      assert SlotHolds(c, w, ir.env[w], s.mem);
      KeepsRead(c, s.mem, a, n, x, c.fp + c.lay.off[w], c.decls[w].ty.Size()) by {
        forall b | c.fp + c.lay.off[w] <= b < c.fp + c.lay.off[w] + c.decls[w].ty.Size() ensures Reserved(c, b) {
          assert c.fp + c.lay.off[w] <= b < c.fp + High(c.decls, c.lay.off, w);
        }
      }
    }
    forall b | !Reserved(c, b) ensures ByteAt(mem, b) == ByteAt(irMem, b) {
      SameWrite(s.mem, ir.mem, a, n, x, b);
    }
    KeepsRead(c, s.mem, a, n, x, c.fp - 8, 8);
    KeepsRead(c, s.mem, a, n, x, c.fp - 16, 8);
  }

  /** A write to free bytes is not seen where all bytes are reserved. */
  lemma KeepsRead(c: Ctx, mem: Bytes, a: int, n: nat, x: int, b: int, k: nat)
    requires AllFree(Free(c), a, n) && forall i :: b <= i < b + k ==> Reserved(c, i)
    ensures Read(Write(mem, a, n, x), b, k) == Read(mem, b, k)
  {
    hide Write, Reserved;
    forall i | b <= i < b + k ensures ByteAt(Write(mem, a, n, x), i) == ByteAt(mem, i) {
      assert a <= i < a + n ==> Free(c)(i);
      WriteElsewhere(mem, a, n, x, i);
    }
    ReadSame(Write(mem, a, n, x), mem, b, k);
  }

  lemma {:induction false} SameWrite(m: Bytes, m2: Bytes, a: int, n: nat, x: int, b: int)
    requires ByteAt(m, b) == ByteAt(m2, b)
    ensures ByteAt(Write(m, a, n, x), b) == ByteAt(Write(m2, a, n, x), b)
    decreases n
  {
    if n > 0 { SameWrite(m[a := x % 256], m2[a := x % 256], a + 1, n - 1, x / 256, b); }
  }

  lemma FreeRead(c: Ctx, ir: IrState, s: State, a: int, n: nat)
    requires Matches(c, ir, s) && AllFree(Free(c), a, n)
    ensures Read(s.mem, a, n) == Read(ir.mem, a, n)
  {
    forall b | a <= b < a + n ensures ByteAt(s.mem, b) == ByteAt(ir.mem, b) {
      assert Free(c)(b);
    }
    ReadSame(s.mem, ir.mem, a, n);
  }

  // ---------- slots and operands ----------

  lemma OffsetRange(c: Ctx, v: nat)
    requires CtxOk(c) && v in c.lay.off
    ensures v in c.decls && -(c.lay.size as int) <= c.lay.off[v] <= -17 && IsInt64(c.lay.off[v])
    ensures 0 <= c.fp + c.lay.off[v] && IsInt64(c.fp + c.lay.off[v])
  {
  }

  /** Reading a slot, in the short and the long form. */
  lemma LoadSlot(sym: nat -> int, s: State, fp: int, at: int, n: nat, reg: Reg)
    requires s.Get(FP) == fp && IsInt64(at) && IsInt64(fp + at) && Temp(reg)
    ensures Exec(sym, LoadFromStack(at, n, reg), s) == Stop(s.Set(reg, Read(s.mem, fp + at, n)), Fall)
  {
    hide Exec, LoadLargeInt64, Read;
    if IsImm12(at) {
      ExecOne(sym, Ld(n, reg, FP, at), s);
    } else {
      var a, b := AddD(reg, FP, reg), Ld(n, reg, reg, 0);
      LoadLargeInt64Exact(sym, at, reg, s);
      ExecConcat(sym, LoadLargeInt64(at, reg), [a, b], s);
      ExecTwo(sym, a, b, s.Set(reg, at));
    }
  }

  /** Writing a slot, in the short form or through $t8. */
  lemma StoreSlot(sym: nat -> int, s: State, fp: int, at: int, n: nat, reg: Reg)
    requires s.Get(FP) == fp && IsInt64(at) && IsInt64(fp + at) && reg != T8
    ensures var s1 := if IsImm12(at) then s else s.Set(T8, fp + at);
      Exec(sym, StoreFromGreg(at, n, reg), s) == Stop(s1.(mem := Write(s.mem, fp + at, n, s.Get(reg))), Fall)
  {
    hide Exec, LoadLargeInt64, Write;
    if IsImm12(at) {
      ExecOne(sym, St(n, reg, FP, at), s);
    } else {
      var a, b := AddD(T8, FP, T8), St(n, reg, T8, 0);
      LoadLargeInt64Exact(sym, at, T8, s);
      ExecConcat(sym, LoadLargeInt64(at, T8), [a, b], s);
      ExecTwo(sym, a, b, s.Set(T8, at));
    }
  }

  /** Operands are loaded with their value. */
  lemma LoadOperand(c: Ctx, sym: nat -> int, ir: IrState, s: State, op: Operand, t: Ty, reg: Reg)
    requires CtxOk(c) && Matches(c, ir, s) && OperandOk(c.decls, op, t) && HasPlace(c.decls, c.lay.off, op) && Temp(reg)
    requires Eval(sym, ir.env, op).Some?
    ensures var x := Eval(sym, ir.env, op).value;
      && Exec(sym, LoadToGreg(c.decls, c.lay.off, op, reg), s) == Stop(s.Set(reg, x), Fall)
      && HasTy(t, x)
      && Matches(c, ir, s.Set(reg, x))
  {
    hide Exec, LoadFromStack, LoadLargeInt32, Read;
    var x := Eval(sym, ir.env, op).value;
    match op
    case ConstInt(_, n) =>
      if IsImm12(n) {
        ExecOne(sym, AddiW(reg, ZERO, n), s);
      } else {
        LoadLargeInt32Exact(sym, n, reg, s);
      }
      TypedIs64(t, x);
      SetTemp(c, ir, s, reg, x);
    case GlobalVar(g) =>
      ExecOne(sym, La(reg, g), s);
      SetTemp(c, ir, s, reg, x);
    case Name(v) =>
      OffsetRange(c, v);
      LoadSlot(sym, s, c.fp, c.lay.off[v], c.decls[v].ty.Size(), reg);
      assert SlotHolds(c, v, x, s.mem);
      TypedIs64(t, x);
      SetTemp(c, ir, s, reg, x);
  }

  lemma AtFrame(c: Ctx, ir: IrState, s: State)
    requires Matches(c, ir, s)
    ensures s.Get(FP) == c.fp
  {
  }

  lemma AddressInT8(c: Ctx, ir: IrState, s: State, at: int)
    requires Matches(c, ir, s) && IsInt64(c.fp + at)
    ensures var s1 := if IsImm12(at) then s else s.Set(T8, c.fp + at);
      Matches(c, ir, s1) && s1.mem == s.mem && forall r: Reg :: r != T8 ==> s1.Get(r) == s.Get(r)
  {
    hide Matches;
    SetTemp(c, ir, s, T8, c.fp + at);
  }

  lemma StoreResultIs(decls: map<nat, Decl>, off: Offsets, v: nat, reg: Reg)
    requires HasSlot(decls, off, v)
    ensures StoreResult(decls, off, v, reg) == StoreFromGreg(off[v], decls[v].ty.Size(), reg)
  {
  }

  lemma MemKeepsRegs(s: State, m: Bytes)
    ensures forall r: Reg :: s.(mem := m).Get(r) == s.Get(r)
  {
  }

  /** Storing to a slot: which registers change, and that the value is lost. */
  lemma StoreAny(c: Ctx, sym: nat -> int, ir: IrState, s: State, v: nat, reg: Reg)
    requires CtxOk(c) && Matches(c, ir, s) && v in c.lay.off && v in c.decls && reg != T8
    ensures var stop := Exec(sym, StoreResult(c.decls, c.lay.off, v, reg), s);
      stop.next == Fall && Matches(c, ir.(env := ir.env - {v}), stop.s) && forall r: Reg ::
          r != T8 ==> stop.s.Get(r) == s.Get(r)
  {
    hide *;
    StoreResultIs(c.decls, c.lay.off, v, reg);
    OffsetRange(c, v);
    var at, n := c.lay.off[v], c.decls[v].ty.Size();
    AtFrame(c, ir, s);
    StoreSlot(sym, s, c.fp, at, n, reg);
    AddressInT8(c, ir, s, at);
    var s1 := if IsImm12(at) then s else s.Set(T8, c.fp + at);
    SlotClobber(c, ir, s1, v, s.Get(reg));
    MemKeepsRegs(s1, Write(s.mem, c.fp + at, n, s.Get(reg)));
  }

  /** Storing a result gives the name its value. */
  lemma StoreName(c: Ctx, sym: nat -> int, ir: IrState, s: State, v: nat, reg: Reg, x: int)
    requires CtxOk(c) && Matches(c, ir, s) && v in c.lay.off && v in c.decls && HasTy(c.decls[v].ty, x)
    requires s.Get(reg) == x && reg != T8
    ensures var stop := Exec(sym, StoreResult(c.decls, c.lay.off, v, reg), s);
      stop.next == Fall && Matches(c, ir.(env := ir.env[v := x]), stop.s)
  {
    hide *;
    StoreResultIs(c.decls, c.lay.off, v, reg);
    OffsetRange(c, v);
    var at, n := c.lay.off[v], c.decls[v].ty.Size();
    AtFrame(c, ir, s);
    StoreSlot(sym, s, c.fp, at, n, reg);
    AddressInT8(c, ir, s, at);
    var s1 := if IsImm12(at) then s else s.Set(T8, c.fp + at);
    SlotWrite(c, ir, s1, v, x);
  }
}
