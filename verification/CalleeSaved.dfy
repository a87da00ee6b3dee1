/** The registers that a function has to leave alone: the emitted code writes none
    of $tp, $r21 and $s0 to $s8. Registers go by their numbers here. */
module CalleeSaved {
  import opened LoongArch
  import opened TypedIr
  import opened Lowering

  predicate KeptForCaller(r: nat) {
    r == 2 || r == 21 || 23 <= r <= 31
  }

  /** The instruction writes none of them. */
  predicate Spares(ins: Instr) {
    match ins
    case St(_, _, _, _) => true
    case B(_) => true
    case Beqz(_, _) => true
    case Jr(_) => true
    case _ => !KeptForCaller(ins.rd)
  }

  predicate SparesAll(code: seq<Instr>) {
    forall i :: 0 <= i < |code| ==> Spares(code[i])
  }

  ghost predicate SameKept(s: State, t: State) {
    forall r: Reg :: KeptForCaller(r) ==> t.Get(r) == s.Get(r)
  }

  lemma EffectSpares(sym: nat -> int, ins: Instr, s: State)
    requires Spares(ins) && Straight(ins)
    ensures SameKept(s, Effect(sym, ins, s))
  {
    hide Read, Write, DivWord;
  }

  /** Code that writes none of them leaves them as they were. */
  lemma {:induction false} ExecSpares(sym: nat -> int, code: seq<Instr>, s: State)
    requires SparesAll(code)
    ensures SameKept(s, Exec(sym, code, s).s)
    decreases |code|
  {
    hide Effect;
    if |code| > 0 {
      assert Spares(code[0]);
      match code[0]
      case B(_) =>
      case Jr(_) =>
      case Beqz(_, _) => ExecSpares(sym, code[1..], s);
      case ins =>
        EffectSpares(sym, ins, s);
        ExecSpares(sym, code[1..], Effect(sym, ins, s));
        SameKeptThen(s, Effect(sym, ins, s), Exec(sym, code, s).s);
    }
  }

  lemma SameKeptThen(s: State, t: State, u: State)
    requires SameKept(s, t) && SameKept(t, u)
    ensures SameKept(s, u)
  {
  }

  // ---------- what is emitted ----------

  lemma LargeSpares(val: int, reg: Reg)
    requires !KeptForCaller(reg)
    ensures SparesAll(LoadLargeInt32(val, reg)) && SparesAll(LoadLargeInt64(val, reg))
  {
    hide Signed20;
  }

  lemma OperandSpares(decls: map<nat, Decl>, off: Offsets, op: Operand, reg: Reg)
    requires HasPlace(decls, off, op) && !KeptForCaller(reg)
    ensures SparesAll(LoadToGreg(decls, off, op, reg))
  {
    hide LoadLargeInt32, LoadLargeInt64;
    match op
    case ConstInt(_, n) => LargeSpares(n, reg);
    case GlobalVar(_) =>
    case Name(v) => LargeSpares(off[v], reg);
  }

  lemma ResultSpares(decls: map<nat, Decl>, off: Offsets, v: nat, reg: Reg)
    requires HasSlot(decls, off, v)
    ensures SparesAll(StoreResult(decls, off, v, reg))
  {
    hide LoadLargeInt64;
    LargeSpares(off[v], T8);
  }

  lemma AddressSpares(at: int)
    ensures SparesAll(SlotAddress(at))
  {
    hide LoadLargeInt64;
    LargeSpares(at, T0);
  }

  lemma OpSpares(op: BinOp, cmp: CmpOp)
    ensures Spares(BinaryOp(op)) && SparesAll(CompareCode(cmp))
  {
  }

  lemma InstSpares(decls: map<nat, Decl>, off: Offsets, ins: Inst)
    requires Lowerable(decls, off, ins) && !ins.Phi? && !ins.Br? && !ins.CondBr? && !ins.Ret?
    ensures SparesAll(InstCode(decls, off, ins))
  {
    hide LoadToGreg, StoreResult, SlotAddress, BinaryOp, CompareCode, HasPlace;
    match ins
    case Binary(id, op, a, b) =>
      OperandSpares(decls, off, a, T0);
      OperandSpares(decls, off, b, T1);
      OpSpares(op, Eq);
      ResultSpares(decls, off, id, T2);
    case Icmp(id, op, a, b) =>
      OperandSpares(decls, off, a, T1);
      OperandSpares(decls, off, b, T2);
      OpSpares(Add, op);
      ResultSpares(decls, off, id, T0);
    case Zext(id, a) =>
      OperandSpares(decls, off, a, T0);
      ResultSpares(decls, off, id, T0);
    case Alloca(id, n) =>
      AddressSpares(off[id]);
      ResultSpares(decls, off, id, T0);
    case Load(id, t, p) =>
      OperandSpares(decls, off, p, T0);
      ResultSpares(decls, off, id, T0);
    case Store(a, p) =>
      OperandSpares(decls, off, p, T1);
      OperandSpares(decls, off, a, T0);
    case Gep(id, base, idxs, elem) =>
      OperandSpares(decls, off, base, T0);
      OperandSpares(decls, off, GepIndex(idxs), T2);
      ResultSpares(decls, off, id, T0);
  }

  lemma {:induction false} CopiesSpare(decls: map<nat, Decl>, off: Offsets, cs: seq<Copy>)
    requires forall i :: 0 <= i < |cs| ==> HasPlace(decls, off, cs[i].src) && HasSlot(decls, off, cs[i].dst)
    ensures SparesAll(CopiesCode(decls, off, cs))
  {
    hide LoadToGreg, StoreResult, HasPlace, HasSlot, Spares;
    if |cs| > 0 {
      var last := cs[|cs| - 1];
      CopiesSpare(decls, off, cs[..|cs| - 1]);
      OperandSpares(decls, off, last.src, T0);
      ResultSpares(decls, off, last.dst, T0);
    }
  }

  lemma FrameSpares(size: nat)
    ensures SparesAll(Prologue(size)) && SparesAll(Epilogue(size))
  {
    hide LoadLargeInt64;
    LargeSpares(size, T0);
  }

  lemma {:induction false} ArgsSpare(decls: map<nat, Decl>, off: Offsets, args: seq<Arg>, n: nat)
    requires n <= |args| <= 8 && forall i :: 0 <= i < n ==> HasSlot(decls, off, args[i].id)
    ensures SparesAll(StoreArgs(decls, off, args, n))
  {
    hide StoreResult, HasSlot, Spares;
    if n > 0 {
      ArgsSpare(decls, off, args, n - 1);
      ResultSpares(decls, off, args[n - 1].id, A0 + (n - 1));
    }
  }

  lemma TermSpares(decls: map<nat, Decl>, off: Offsets, size: nat, retTy: Opt<Ty>, t: Inst)
    requires Lowerable(decls, off, t) && (t.Br? || t.CondBr? || t.Ret?)
    ensures SparesAll(TermCode(decls, off, size, retTy, t))
  {
    hide LoadToGreg, Epilogue, HasPlace;
    match t
    case Br(_) =>
    case CondBr(c, _, _) => OperandSpares(decls, off, c, T0);
    case Ret(r) =>
      FrameSpares(size);
      if r.Some? { OperandSpares(decls, off, r.value, A0); }
  }
}
