/** Code generation as the source runs it: frame offsets are assigned first, then
    each block appends its instructions to the output. */
module CodeGen {
  import opened Bits
  import opened LoongArch
  import opened TypedIr
  import opened FrameLayout
  import opened Lowering
  import opened LoweringSound
  import opened TypedRun
  import opened PhiEdges
  import opened FunctionSound

  // ---------- how much a frame can take ----------

  function Need(ins: Inst): nat {
    if ins.IsVoid() then 0 else 2 * ins.Needs().ty.Size() + ins.Needs().body
  }

  function ArgNeed(args: seq<Arg>, n: nat): nat
    requires n <= |args|
  {
    if n == 0 then 0 else ArgNeed(args, n - 1) + 2 * args[n - 1].ty.Size()
  }

  function ListNeed(list: seq<Inst>, n: nat): nat
    requires n <= |list|
  {
    if n == 0 then 0 else ListNeed(list, n - 1) + Need(list[n - 1])
  }

  function CodeNeed(f: Fn, k: nat): nat
    requires k <= |f.blocks| && forall b :: b in f.blocks ==> b in f.code
  {
    if k == 0 then 0 else CodeNeed(f, k - 1) + ListNeed(f.code[f.blocks[k - 1]], |f.code[f.blocks[k - 1]]|)
  }

  /** Offsets stay within 31 bits: no 32-bit computation of the frame wraps. */
  ghost predicate FrameFits(f: Fn)
    requires FnOk(f)
  {
    32 + ArgNeed(f.args, |f.args|) + CodeNeed(f, |f.blocks|) < TWO_31
  }

  lemma {:induction false} NeedGrows(list: seq<Inst>, n: nat, m: nat)
    requires n <= m <= |list|
    ensures ListNeed(list, n) <= ListNeed(list, m)
  {
    if n < m { NeedGrows(list, n, m - 1); }
  }

  lemma {:induction false} ArgNeedGrows(args: seq<Arg>, n: nat, m: nat)
    requires n <= m <= |args|
    ensures ArgNeed(args, n) <= ArgNeed(args, m)
  {
    if n < m { ArgNeedGrows(args, n, m - 1); }
  }

  lemma {:induction false} CodeNeedGrows(f: Fn, n: nat, m: nat)
    requires n <= m <= |f.blocks| && forall b :: b in f.blocks ==> b in f.code
    ensures CodeNeed(f, n) <= CodeNeed(f, m)
  {
    if n < m { CodeNeedGrows(f, n, m - 1); }
  }

  /** The formula of the source, at the alignments the frame uses. */
  lemma AlignHere(x: nat, t: Ty)
    requires x + 16 < TWO_32
    ensures AlignBits(x, t.Size()) == AlignUp(x, t.Size()) && AlignBits(x, 16) == AlignUp(x, 16)
  {
    hide AlignBits, AlignUp;
    assert Pow2(0) == 1 && Pow2(2) == 4 && Pow2(3) == 8 && Pow2(4) == 16;
    AlignIsAlignUp(x, 0);
    AlignIsAlignUp(x, 2);
    AlignIsAlignUp(x, 3);
    AlignIsAlignUp(x, 4);
  }

  // ---------- names in order ----------

  lemma NextIsNew(f: Fn, k: nat, n: nat)
    requires FnOk(f) && NamesDistinct(f) && k < |f.blocks| && f.blocks[k] in f.code && n < |f.code[f.blocks[k]]|
    requires !f.code[f.blocks[k]][n].IsVoid()
    ensures !ArgNamed(f, |f.args|, f.code[f.blocks[k]][n].id) && !CodeNamed(f, k, n, f.code[f.blocks[k]][n].id)
  {
    hide InstOk;
    var v := f.code[f.blocks[k]][n].id;
    forall j, i | 0 <= j < |f.blocks| && f.blocks[j] in f.code && 0 <= i < |f.code[f.blocks[j]]| &&
        (j < k || (j == k && i < n))
      ensures !DefinesName(f.code[f.blocks[j]][i], v)
    {
      if j < k { assert f.blocks[j] != f.blocks[k]; }
    }
  }

  /** One more instruction of block k. */
  lemma NamedNext(f: Fn, k: nat, n: nat, v: nat)
    requires k < |f.blocks| && f.blocks[k] in f.code && n < |f.code[f.blocks[k]]|
    ensures CodeNamed(f, k, n + 1, v) <==> CodeNamed(f, k, n, v) || DefinesName(f.code[f.blocks[k]][n], v)
  {
    hide DefinesName;
  }

  lemma NamedBlock(f: Fn, k: nat, v: nat)
    requires k < |f.blocks| && f.blocks[k] in f.code
    ensures CodeNamed(f, k + 1, 0, v) <==> CodeNamed(f, k, |f.code[f.blocks[k]]|, v)
  {
    hide DefinesName;
  }

  lemma NamedAll(f: Fn, v: nat)
    requires FnOk(f)
    ensures Named(f, v) <==> ArgNamed(f, |f.args|, v) || CodeNamed(f, |f.blocks|, 0, v)
  {
    hide InstOk;
    if Named(f, v) && !ArgNamed(f, |f.args|, v) {
      var b, i :| b in f.code && 0 <= i < |f.code[b]| && !f.code[b][i].IsVoid() && f.code[b][i].id == v;
      assert b in f.blocks;
      var j :| 0 <= j < |f.blocks| && f.blocks[j] == b;
      assert DefinesName(f.code[f.blocks[j]][i], v);
    } else if CodeNamed(f, |f.blocks|, 0, v) {
      var j, i :| 0 <= j < |f.blocks| && f.blocks[j] in f.code && 0 <= i < |f.code[f.blocks[j]]|
          && DefinesName(f.code[f.blocks[j]][i], v);
      var b := f.blocks[j];
      assert !f.code[b][i].IsVoid() && f.code[b][i].id == v;
    }
  }

  class CodeGen {
    var offsetMap: map<nat, int>
    var frameSize: nat
    var output: seq<Instr>

    constructor ()
      ensures offsetMap == map[] && frameSize == 0 && output == []
    {
      offsetMap, frameSize, output := map[], 0, [];
    }

    /** Give every argument and result a slot, every alloca its bytes, and the
        frame its size. */
    method Allocate(f: Fn)
      requires FnOk(f) && NamesDistinct(f) && FrameFits(f)
      modifies this`offsetMap, this`frameSize
      ensures FrameFor(f, Layout(offsetMap, frameSize)) && frameSize < TWO_31
    {
      hide FnOk, NamesDistinct, FrameFits, Filled, AlignBits, ArgNeed, CodeNeed, ListNeed, FrameFor, Placed, Named,
          Inst.Needs;
      var offset: nat := PROLOGUE_OFFSET_BASE;
      offsetMap := map[];
      StartFrame(f);
      for k := 0 to |f.args|
        invariant Filled(f, offsetMap, offset, k, 0, 0) && offset <= 16 + ArgNeed(f.args, k)
      {
        var size := f.args[k].ty.Size();
        PlaceArg(f, offsetMap, offset, k);
        offset := AlignBits(offset + size, size);
        offsetMap := offsetMap[f.args[k].id := -(offset as int)];
      }
      StartBlocks(f);
      for k := 0 to |f.blocks|
        invariant Filled(f, offsetMap, offset, |f.args|, k, 0)
        invariant BlocksHaveCode(f) && offset <= 16 + ArgNeed(f.args, |f.args|) + CodeNeed(f, k)
      {
        StartBlock(f, k);
        var list := f.code[f.blocks[k]];
        for n := 0 to |list|
          invariant Filled(f, offsetMap, offset, |f.args|, k, n)
          invariant offset <= 16 + ArgNeed(f.args, |f.args|) + CodeNeed(f, k) + ListNeed(list, n)
        {
          var ins := list[n];
          PlaceInst(f, offsetMap, offset, k, n);
          if !ins.IsVoid() {
            var size := ins.Needs().ty.Size();
            offset := AlignBits(offset + size, size);
            offsetMap := offsetMap[ins.id := -(offset as int)];
          }
          if ins.Alloca? {
            offset := offset + ins.size;
          }
        }
        EndBlock(f, offsetMap, offset, k);
      }
      EndFrame(f, offsetMap, offset);
      frameSize := AlignBits(offset, PROLOGUE_ALIGN);
    }

    // ---------- registers and slots ----------

    method AppendInst(ins: Instr)
      modifies this`output
      ensures output == old(output) + [ins]
    {
      output := output + [ins];
    }

    method EmitLargeInt32(val: int, reg: Reg)
      modifies this`output
      ensures output == old(output) + LoadLargeInt32(val, reg)
    {
      var high20, low12 := val / 0x1000, val % 0x1000;
      AppendInst(Lu12iW(reg, high20));
      AppendInst(Ori(reg, reg, low12));
    }

    method EmitLargeInt64(val: int, reg: Reg)
      modifies this`output
      ensures output == old(output) + LoadLargeInt64(val, reg)
    {
      hide LoadLargeInt32;
      var low32 := Signed32(val);
      EmitLargeInt32(low32, reg);
      var high32 := val / TWO_32;
      AppendInst(Lu32iD(reg, Signed20(high32)));
      AppendInst(Lu52iD(reg, reg, high32 / 0x10_0000));
    }

    method EmitLoadFromStack(decls: map<nat, Decl>, v: nat, reg: Reg)
      requires HasSlot(decls, offsetMap, v)
      modifies this`output
      ensures output == old(output) + LoadFromStack(offsetMap[v], decls[v].ty.Size(), reg)
    {
      hide LoadLargeInt64;
      var offset := offsetMap[v];
      if IsImm12(offset) {
        match decls[v].ty
        case I1 => AppendInst(Ld(1, reg, FP, offset));
        case I32 => AppendInst(Ld(4, reg, FP, offset));
        case Ptr => AppendInst(Ld(8, reg, FP, offset));
      } else {
        EmitLargeInt64(offset, reg);
        AppendInst(AddD(reg, FP, reg));
        match decls[v].ty
        case I1 => AppendInst(Ld(1, reg, reg, 0));
        case I32 => AppendInst(Ld(4, reg, reg, 0));
        case Ptr => AppendInst(Ld(8, reg, reg, 0));
      }
    }

    method EmitLoad(decls: map<nat, Decl>, op: Operand, reg: Reg)
      requires HasPlace(decls, offsetMap, op)
      modifies this`output
      ensures output == old(output) + LoadToGreg(decls, offsetMap, op, reg)
    {
      hide LoadLargeInt32, LoadFromStack;
      match op
      case ConstInt(_, n) =>
        if IsImm12(n) {
          AppendInst(AddiW(reg, ZERO, n));
        } else {
          EmitLargeInt32(n, reg);
        }
      case GlobalVar(g) => AppendInst(La(reg, g));
      case Name(v) => EmitLoadFromStack(decls, v, reg);
    }

    method EmitStore(decls: map<nat, Decl>, v: nat, reg: Reg)
      requires HasSlot(decls, offsetMap, v)
      modifies this`output
      ensures output == old(output) + StoreResult(decls, offsetMap, v, reg)
    {
      hide LoadLargeInt64;
      var offset := offsetMap[v];
      if IsImm12(offset) {
        match decls[v].ty
        case I1 => AppendInst(St(1, reg, FP, offset));
        case I32 => AppendInst(St(4, reg, FP, offset));
        case Ptr => AppendInst(St(8, reg, FP, offset));
      } else {
        EmitLargeInt64(offset, T8);
        AppendInst(AddD(T8, FP, T8));
        match decls[v].ty
        case I1 => AppendInst(St(1, reg, T8, 0));
        case I32 => AppendInst(St(4, reg, T8, 0));
        case Ptr => AppendInst(St(8, reg, T8, 0));
      }
    }

    // ---------- frame ----------

    /** Save the caller's registers and take the frame. */
    method EnterFrame()
      modifies this`output
      ensures output == old(output) + Prologue(frameSize)
    {
      hide LoadLargeInt64;
      if IsImm12(-(frameSize as int)) {
        AppendInst(St(8, RA, SP, -8));
        AppendInst(St(8, FP, SP, -16));
        AppendInst(AddiD(FP, SP, 0));
        AppendInst(AddiD(SP, SP, -(frameSize as int)));
      } else {
        EmitLargeInt64(frameSize, T0);
        AppendInst(St(8, RA, SP, -8));
        AppendInst(St(8, FP, SP, -16));
        AppendInst(SubD(SP, SP, T0));
        AppendInst(AddD(FP, SP, T0));
      }
    }

    method GenPrologue(f: Fn)
      requires |f.args| <= 8 && forall i :: 0 <= i < |f.args| ==> HasSlot(f.decls, offsetMap, f.args[i].id)
      modifies this`output
      ensures output == old(output) + EntryCode(f, Layout(offsetMap, frameSize))
    {
      hide Prologue, StoreResult;
      EnterFrame();
      ghost var start := output;
      for k := 0 to |f.args|
        invariant output == start + StoreArgs(f.decls, offsetMap, f.args, k)
      {
        EmitStore(f.decls, f.args[k].id, A0 + k);
      }
    }

    method GenEpilogue()
      modifies this`output
      ensures output == old(output) + Epilogue(frameSize)
    {
      hide LoadLargeInt64;
      if IsImm12(-(frameSize as int)) {
        AppendInst(AddiD(SP, SP, frameSize));
        AppendInst(Ld(8, RA, SP, -8));
        AppendInst(Ld(8, FP, SP, -16));
      } else {
        EmitLargeInt64(frameSize, T0);
        AppendInst(AddD(SP, SP, T0));
        AppendInst(Ld(8, RA, SP, -8));
        AppendInst(Ld(8, FP, SP, -16));
      }
      AppendInst(Jr(RA));
    }

    // ---------- instructions ----------

    method GenRet(f: Fn, retTy: Opt<Ty>, t: Inst)
      requires t.Ret? && Lowerable(f.decls, offsetMap, t)
      modifies this`output
      ensures output == old(output) + TermCode(f.decls, offsetMap, frameSize, retTy, t)
    {
      hide LoadToGreg, Epilogue;
      ghost var value := RetValue(f.decls, offsetMap, retTy, t.result);
      match t.result {
        case Some(op) =>
          if retTy == Some(Ptr) || retTy == Some(I32) {
            EmitLoad(f.decls, op, A0);
          }
        case None => AppendInst(AddiD(A0, ZERO, 0));
      }
      assert output == old(output) + value;
      GenEpilogue();
      assert output == old(output) + (value + Epilogue(frameSize));
    }

    method GenBr(f: Fn, retTy: Opt<Ty>, t: Inst)
      requires (t.Br? || t.CondBr?) && Lowerable(f.decls, offsetMap, t)
      modifies this`output
      ensures output == old(output) + TermCode(f.decls, offsetMap, frameSize, retTy, t)
    {
      hide LoadToGreg;
      match t
      case CondBr(c, yes, no) =>
        EmitLoad(f.decls, c, T0);
        AppendInst(Beqz(T0, no));
        AppendInst(B(yes));
      case Br(l) => AppendInst(B(l));
    }

    method GenBinary(decls: map<nat, Decl>, ins: Inst)
      requires ins.Binary? && Lowerable(decls, offsetMap, ins)
      modifies this`output
      ensures output == old(output) + InstCode(decls, offsetMap, ins)
    {
      hide LoadToGreg, StoreResult;
      EmitLoad(decls, ins.a, T0);
      EmitLoad(decls, ins.b, T1);
      match ins.bop {
        case Add => AppendInst(AddW(T2, T0, T1));
        case Sub => AppendInst(SubW(T2, T0, T1));
        case Mul => AppendInst(MulW(T2, T0, T1));
        case Sdiv => AppendInst(DivW(T2, T0, T1));
      }
      EmitStore(decls, ins.id, T2);
    }

    /** The comparison itself: operands in $t1 and $t2, the answer in $t0. */
    method EmitCompare(cop: CmpOp)
      modifies this`output
      ensures output == old(output) + CompareCode(cop)
    {
      match cop {
        case Ge =>
          AppendInst(Slt(T3, T1, T2));
          AppendInst(Slti(T0, T3, 1));
        case Gt =>
          AppendInst(Slt(T0, T2, T1));
        case Le =>
          AppendInst(Slt(T3, T2, T1));
          AppendInst(Slti(T0, T3, 1));
        case Lt =>
          AppendInst(Slt(T0, T1, T2));
        case Eq =>
          AppendInst(Slt(T3, T2, T1));
          AppendInst(Slt(T4, T1, T2));
          AppendInst(Or(T0, T3, T4));
          AppendInst(Slti(T0, T0, 1));
        case Ne =>
          AppendInst(Slt(T3, T2, T1));
          AppendInst(Slt(T4, T1, T2));
          AppendInst(Or(T0, T3, T4));
      }
    }

    method GenIcmp(decls: map<nat, Decl>, ins: Inst)
      requires ins.Icmp? && Lowerable(decls, offsetMap, ins)
      modifies this`output
      ensures output == old(output) + InstCode(decls, offsetMap, ins)
    {
      hide LoadToGreg, StoreResult, CompareCode;
      EmitLoad(decls, ins.a, T1);
      EmitLoad(decls, ins.b, T2);
      EmitCompare(ins.cop);
      EmitStore(decls, ins.id, T0);
    }

    method GenZext(decls: map<nat, Decl>, ins: Inst)
      requires ins.Zext? && Lowerable(decls, offsetMap, ins)
      modifies this`output
      ensures output == old(output) + InstCode(decls, offsetMap, ins)
    {
      hide LoadFromStack, StoreResult;
      EmitLoadFromStack(decls, ins.a.v, T0);
      EmitStore(decls, ins.id, T0);
    }

    method GenAlloca(decls: map<nat, Decl>, ins: Inst)
      requires ins.Alloca? && Lowerable(decls, offsetMap, ins)
      modifies this`output
      ensures output == old(output) + InstCode(decls, offsetMap, ins)
    {
      hide LoadLargeInt64, StoreResult;
      var offset := offsetMap[ins.id];
      if IsImm12(offset) {
        AppendInst(AddiD(T0, FP, offset));
      } else {
        EmitLargeInt64(offset, T0);
        AppendInst(AddD(T0, FP, T0));
      }
      AppendInst(AddiD(T0, T0, -(ins.size as int)));
      EmitStore(decls, ins.id, T0);
    }

    method GenLoad(decls: map<nat, Decl>, ins: Inst)
      requires ins.Load? && Lowerable(decls, offsetMap, ins)
      modifies this`output
      ensures output == old(output) + InstCode(decls, offsetMap, ins)
    {
      hide LoadToGreg, StoreResult;
      EmitLoad(decls, ins.p, T0);
      match ins.ty {
        case I1 => AppendInst(Ld(1, T0, T0, 0));
        case Ptr => AppendInst(Ld(8, T0, T0, 0));
        case I32 => AppendInst(Ld(4, T0, T0, 0));
      }
      EmitStore(decls, ins.id, T0);
    }

    method GenStore(decls: map<nat, Decl>, ins: Inst)
      requires ins.Store? && Lowerable(decls, offsetMap, ins)
      modifies this`output
      ensures output == old(output) + InstCode(decls, offsetMap, ins)
    {
      hide LoadFromStack, LoadLargeInt32;
      EmitLoad(decls, ins.p, T1);
      match TypeOf(decls, ins.a)
      case I1 =>
        EmitLoadFromStack(decls, ins.a.v, T0);
        AppendInst(St(1, T0, T1, 0));
      case I32 =>
        EmitLoad(decls, ins.a, T0);
        AppendInst(St(4, T0, T1, 0));
      case Ptr =>
        EmitLoad(decls, ins.a, T0);
        AppendInst(St(8, T0, T1, 0));
    }

    /** The element size in $t1: cleared first, then set. */
    method EmitElementSize(elem: nat)
      modifies this`output
      ensures output == old(output) + [AddiD(T1, ZERO, 0), AddiD(T1, ZERO, ElementSize(elem))]
    {
      AppendInst(AddiD(T1, ZERO, 0));
      if elem == 1 {
        AppendInst(AddiD(T1, ZERO, 1));
      } else if elem == 4 {
        AppendInst(AddiD(T1, ZERO, 4));
      } else {
        AppendInst(AddiD(T1, ZERO, 8));
      }
    }

    method GenGep(decls: map<nat, Decl>, ins: Inst)
      requires ins.Gep? && Lowerable(decls, offsetMap, ins)
      modifies this`output
      ensures output == old(output) + InstCode(decls, offsetMap, ins)
    {
      hide LoadToGreg, StoreResult, ElementSize;
      var idx := if |ins.idxs| > 1 then ins.idxs[1] else ins.idxs[0];
      EmitLoad(decls, ins.base, T0);
      EmitElementSize(ins.elem);
      EmitLoad(decls, idx, T2);
      AppendInst(MulD(T3, T1, T2));
      AppendInst(AddD(T0, T0, T3));
      EmitStore(decls, ins.id, T0);
    }

    method GenInst(decls: map<nat, Decl>, ins: Inst)
      requires Lowerable(decls, offsetMap, ins) && !ins.Phi? && !IsTerminator(ins)
      modifies this`output
      ensures output == old(output) + InstCode(decls, offsetMap, ins)
    {
      hide Lowerable, InstCode;
      match ins
      case Binary(_, _, _, _) => GenBinary(decls, ins);
      case Icmp(_, _, _, _) => GenIcmp(decls, ins);
      case Zext(_, _) => GenZext(decls, ins);
      case Alloca(_, _) => GenAlloca(decls, ins);
      case Load(_, _, _) => GenLoad(decls, ins);
      case Store(_, _) => GenStore(decls, ins);
      case Gep(_, _, _, _) => GenGep(decls, ins);
    }

    // ---------- phis ----------

    /** Copies into the phi slots of one successor. */
    method CopyPhisOf(decls: map<nat, Decl>, list: seq<Inst>, b: int)
      requires PhisFed(list) && CopiesPlaced(decls, offsetMap, PhiCopies(list, b, |list|))
      modifies this`output
      ensures output == old(output) + CopiesCode(decls, offsetMap, PhiCopies(list, b, |list|))
    {
      hide CopyCode, PhisFed, PhiCopies, CopiesCode, StoreResult, LoadToGreg;
      FirstCopies(decls, offsetMap, list, b);
      for n := 0 to |list|
        invariant CopiesPlaced(decls, offsetMap, PhiCopies(list, b, n))
        invariant output == old(output) + CopiesCode(decls, offsetMap, PhiCopies(list, b, n))
      {
        NextCopy(decls, offsetMap, list, b, n);
        ghost var code := output;
        if list[n].Phi? {
          PhiHasPair(list, n);
          var pairs := list[n].pairs;
          if b == pairs[0].block {
            EmitLoad(decls, pairs[0].value, T0);
            EmitStore(decls, list[n].id, T0);
            assert output == code + CopyCode(decls, offsetMap, Copy(list[n].id, pairs[0].value)) by {
              CopyCodeIs(decls, offsetMap, Copy(list[n].id, pairs[0].value));
            }
          } else if |pairs| != 1 {
            EmitLoad(decls, pairs[1].value, T0);
            EmitStore(decls, list[n].id, T0);
            assert output == code + CopyCode(decls, offsetMap, Copy(list[n].id, pairs[1].value)) by {
              CopyCodeIs(decls, offsetMap, Copy(list[n].id, pairs[1].value));
            }
          }
        }
      }
    }

    /** Copies into the phi slots of all successors. */
    method HandlePhi(f: Fn, b: int, t: Inst)
      requires SuccessorsFed(f, t) && CopiesPlaced(f.decls, offsetMap, AllCopies(f, b, t))
      modifies this`output
      ensures output == old(output) + CopiesCode(f.decls, offsetMap, AllCopies(f, b, t))
    {
      hide PhisFed, CopiesCode, PhiCopies, AllCopies, CopiesUpTo;
      var succs := Successors(t);
      ghost var off := offsetMap;
      AllIsUpTo(f, off, b, t);
      for j := 0 to |succs|
        invariant CopiesPlaced(f.decls, off, CopiesUpTo(f, off, b, t, j))
        invariant output == old(output) + CopiesCode(f.decls, off, CopiesUpTo(f, off, b, t, j))
      {
        UpToNext(f, off, b, t, j);
        CopyPhisOf(f.decls, f.code[succs[j]], b);
      }
    }

    // ---------- blocks and functions ----------

    /** The instructions of a block in order; the copies come right before the branch. */
    method GenBlock(f: Fn, retTy: Opt<Ty>, b: int)
      requires BlockReady(f, offsetMap, b)
      modifies this`output
      ensures output == old(output) + BlockCode(f, offsetMap, frameSize, retTy, b)
    {
      hide Lowerable, BodyCode, CopiesCode, TermCode, AllCopies, PhisFed, CopiesPlaced, InstCode;
      var list := f.code[b];
      ghost var body := list[..|list| - 1];
      assert body[..0] == [];
      NoBody(f.decls, offsetMap);
      for n := 0 to |list| - 1
        invariant output == old(output) + BodyCode(f.decls, offsetMap, body[..n])
      {
        BodyNext(f.decls, offsetMap, body, n);
        if !list[n].Phi? {
          GenInst(f.decls, list[n]);
        }
      }
      assert body[..|list| - 1] == body;
      var t := list[|list| - 1];
      if t.Ret? {
        NoneBeforeReturn(f, offsetMap, b, t);
        GenRet(f, retTy, t);
      } else {
        HandlePhi(f, b, t);
        GenBr(f, retTy, t);
      }
    }

    /** A function: its frame, its entry, the code under each block's label, and one
        more epilogue behind the last block, whether or not control can get there. */
    method GenFunction(f: Fn, retTy: Opt<Ty>) returns (entry: seq<Instr>, code: map<int, seq<Instr>>, tail: seq<Instr>)
      requires FnOk(f) && NamesDistinct(f) && FrameFits(f) && |f.args| <= 8
      requires CodeOk(f, NamesOf(f))
      modifies this
      ensures FrameFor(f, Layout(offsetMap, frameSize)) && frameSize < TWO_31
      ensures CodeOk(f, offsetMap)
      ensures forall c: Ctx ::
          c.decls == f.decls && c.lay == Layout(offsetMap, frameSize) ==> Generated(f, c, retTy, code)
      ensures forall i :: 0 <= i < |f.args| ==> HasSlot(f.decls, offsetMap, f.args[i].id)
      ensures entry == EntryCode(f, Layout(offsetMap, frameSize))
      ensures tail == Epilogue(frameSize)
    {
      hide InstOk, FrameFits, NamesDistinct, BlockCode, Placed, Prologue, StoreArgs, CodeOk, Named, FnOk;
      Allocate(f);
      var lay := Layout(offsetMap, frameSize);
      ghost var any := Ctx(f.decls, lay, 0, 0, 0);
      PlacesMatter(f, offsetMap);
      ArgsHaveSlots(f, lay);
      output := [];
      GenPrologue(f);
      entry := output;
      code := map[];
      for k := 0 to |f.blocks|
        invariant lay == Layout(offsetMap, frameSize)
        invariant entry == EntryCode(f, lay)
        invariant GeneratedUpTo(f, any, retTy, code, k)
      {
        CodeHere(f, k);
        ReadyHere(f, any, f.blocks[k]);
        output := [];
        GenBlock(f, retTy, f.blocks[k]);
        GeneratedNext(f, any, retTy, code, k, output);
        code := code[f.blocks[k] := output];
      }
      output := [];
      GenEpilogue();
      tail := output;
      forall c: Ctx | c.decls == f.decls && c.lay == lay ensures Generated(f, c, retTy, code) {
        AnyCall(f, any, c, retTy, code, |f.blocks|);
        AllGenerated(f, c, retTy, code);
      }
    }
  }

  // ---------- facts for blocks and functions ----------

  /** The names of a function; only which names there are matters to CodeOk. */
  ghost function NamesOf(f: Fn): Offsets {
    map v | v in f.decls && Named(f, v) :: 0
  }

  lemma SameLowerable(decls: map<nat, Decl>, a: Offsets, b: Offsets, ins: Inst)
    requires a.Keys == b.Keys
    ensures Lowerable(decls, a, ins) == Lowerable(decls, b, ins)
  {
  }

  lemma SameBlockOk(f: Fn, a: Offsets, b: Offsets, blk: int)
    requires a.Keys == b.Keys && BlockOk(f, a, blk)
    ensures BlockOk(f, b, blk)
  {
    hide Lowerable;
    var list := f.code[blk];
    forall i | 0 <= i < |list| ensures Lowerable(f.decls, b, list[i]) { SameLowerable(f.decls, a, b, list[i]); }
  }

  lemma SameCodeOk(f: Fn, a: Offsets, b: Offsets)
    requires a.Keys == b.Keys && CodeOk(f, a)
    ensures CodeOk(f, b)
  {
    hide BlockOk, InstOk, NamesDistinct;
    forall blk | blk in f.code ensures BlockOk(f, b, blk) { SameBlockOk(f, a, b, blk); }
  }

  /** Every name is declared. */
  lemma NamedDeclared(f: Fn, v: nat)
    requires FnOk(f) && Named(f, v)
    ensures v in f.decls
  {
    hide InstOk;
    if b, i :| b in f.code && 0 <= i < |f.code[b]| && !f.code[b][i].IsVoid() && f.code[b][i].id == v {
      assert InstOk(f.decls, f.code[b][i]);
      Declared(f.decls, f.code[b][i]);
    }
  }

  lemma PlacesMatter(f: Fn, off: Offsets)
    requires FnOk(f) && CodeOk(f, NamesOf(f)) && forall v :: v in off <==> Named(f, v)
    ensures CodeOk(f, off)
  {
    hide CodeOk, FnOk, Named;
    forall v ensures v in off <==> v in NamesOf(f) {
      if v in off { NamedDeclared(f, v); }
    }
    assert off.Keys == NamesOf(f).Keys;
    SameCodeOk(f, NamesOf(f), off);
  }

  lemma CopyCodeIs(decls: map<nat, Decl>, off: Offsets, cp: Copy)
    requires HasPlace(decls, off, cp.src) && HasSlot(decls, off, cp.dst)
    ensures CopyCode(decls, off, cp) == LoadToGreg(decls, off, cp.src, T0) + StoreResult(decls, off, cp.dst, T0)
  {
  }

  lemma NoBody(decls: map<nat, Decl>, off: Offsets)
    ensures BodyCode(decls, off, []) == []
  {
  }

  lemma FirstCopies(decls: map<nat, Decl>, off: Offsets, list: seq<Inst>, b: int)
    requires PhisFed(list)
    ensures PhiCopies(list, b, 0) == [] && CopiesCode(decls, off, []) == [] && CopiesPlaced(decls, off, [])
  {
  }

  lemma {:induction false} CopiesPrefix(list: seq<Inst>, b: int, n: nat, m: nat)
    requires n <= m <= |list| && PhisFed(list)
    ensures PhiCopies(list, b, n) <= PhiCopies(list, b, m)
  {
    if n < m { CopiesPrefix(list, b, n, m - 1); }
  }

  /** One more instruction of the successor: nothing, or one copy at the end. */
  lemma NextCopy(decls: map<nat, Decl>, off: Offsets, list: seq<Inst>, b: int, n: nat)
    requires n < |list| && PhisFed(list) && CopiesPlaced(decls, off, PhiCopies(list, b, |list|))
    requires CopiesPlaced(decls, off, PhiCopies(list, b, n))
    ensures CopiesPlaced(decls, off, PhiCopies(list, b, n + 1))
    ensures list[n].Phi? ==> |list[n].pairs| > 0
    ensures var cs := PhiCopies(list, b, n);
      var code := CopiesCode(decls, off, PhiCopies(list, b, n + 1));
      if list[n].Phi? && |PhiCopy(list[n], b)| == 1 then
        var cp := PhiCopy(list[n], b)[0];
        && HasPlace(decls, off, cp.src) && HasSlot(decls, off, cp.dst)
        && code == CopiesCode(decls, off, cs) + CopyCode(decls, off, cp)
      else code == CopiesCode(decls, off, cs)
  {
    hide CopyCode, HasPlace, HasSlot;
    var cs, more := PhiCopies(list, b, n), PhiCopies(list, b, n + 1);
    CopiesPrefix(list, b, n + 1, |list|);
    var all := PhiCopies(list, b, |list|);
    forall i | 0 <= i < |more| ensures more[i] == all[i] {}
    if list[n].Phi? && |PhiCopy(list[n], b)| == 1 {
      assert more == cs + [PhiCopy(list[n], b)[0]];
      assert more[..|more| - 1] == cs && more[|more| - 1] == PhiCopy(list[n], b)[0];
    } else {
      assert more == cs;
    }
  }

  /** The copies for the first j successors. */
  function CopiesUpTo(f: Fn, off: Offsets, b: int, t: Inst, j: nat): seq<Copy>
    requires j <= |Successors(t)| && SuccessorsFed(f, t)
  {
    if j == 0 then []
    else
      var l := Successors(t)[j - 1];
      assert l in Successors(t);
      CopiesUpTo(f, off, b, t, j - 1) + PhiCopies(f.code[l], b, |f.code[l]|)
  }

  lemma AllIsUpTo(f: Fn, off: Offsets, b: int, t: Inst)
    requires SuccessorsFed(f, t)
    ensures CopiesUpTo(f, off, b, t, |Successors(t)|) == AllCopies(f, b, t)
    ensures CopiesUpTo(f, off, b, t, 0) == [] && CopiesCode(f.decls, off, []) == [] && CopiesPlaced(f.decls, off, [])
  {
    hide PhiCopies, PhisFed;
    match t
    case CondBr(_, yes, no) =>
      assert yes in Successors(t) && no in Successors(t);
      assert CopiesUpTo(f, off, b, t, 1) == PhiCopies(f.code[yes], b, |f.code[yes]|);
      assert CopiesUpTo(f, off, b, t, 2) == CopiesUpTo(f, off, b, t, 1) + PhiCopies(f.code[no], b, |f.code[no]|);
    case Br(l) =>
      assert l in Successors(t);
      assert CopiesUpTo(f, off, b, t, 1) == PhiCopies(f.code[l], b, |f.code[l]|);
    case _ =>
  }

  lemma {:induction false} UpToPrefix(f: Fn, off: Offsets, b: int, t: Inst, j: nat, m: nat)
    requires j <= m <= |Successors(t)| && SuccessorsFed(f, t)
    ensures CopiesUpTo(f, off, b, t, j) <= CopiesUpTo(f, off, b, t, m)
  {
    hide PhiCopies, PhisFed;
    if j < m { UpToPrefix(f, off, b, t, j, m - 1); }
  }

  lemma {:induction false} CopiesConcat(decls: map<nat, Decl>, off: Offsets, a: seq<Copy>, b: seq<Copy>)
    requires CopiesPlaced(decls, off, a) && CopiesPlaced(decls, off, b)
    ensures CopiesPlaced(decls, off, a + b)
    ensures CopiesCode(decls, off, a + b) == CopiesCode(decls, off, a) + CopiesCode(decls, off, b)
  {
    hide CopyCode, HasPlace, HasSlot;
    if |b| == 0 {
      assert a + b == a;
    } else {
      var n := |b| - 1;
      var front := b[..n];
      CopiesConcat(decls, off, a, front);
      var all := a + b;
      assert all[..|all| - 1] == a + front && all[|all| - 1] == b[n];
      assert (CopiesCode(decls, off, a) + CopiesCode(decls, off, front)) + CopyCode(decls, off, b[n])
          == CopiesCode(decls, off, a) + (CopiesCode(decls, off, front) + CopyCode(decls, off, b[n]));
    }
  }

  lemma UpToNext(f: Fn, off: Offsets, b: int, t: Inst, j: nat)
    requires j < |Successors(t)| && SuccessorsFed(f, t) && CopiesPlaced(f.decls, off, AllCopies(f, b, t))
    requires CopiesPlaced(f.decls, off, CopiesUpTo(f, off, b, t, j))
    ensures var l := Successors(t)[j];
      && l in f.code && PhisFed(f.code[l])
      && CopiesPlaced(f.decls, off, PhiCopies(f.code[l], b, |f.code[l]|))
      && CopiesPlaced(f.decls, off, CopiesUpTo(f, off, b, t, j + 1))
      && CopiesCode(f.decls, off, CopiesUpTo(f, off, b, t, j + 1))
         == CopiesCode(f.decls, off, CopiesUpTo(f, off, b, t, j)) + CopiesCode(f.decls, off,
             PhiCopies(f.code[l], b, |f.code[l]|))
  {
    hide PhiCopies, PhisFed, CopiesCode, AllCopies, HasPlace, HasSlot;
    var l := Successors(t)[j];
    assert l in Successors(t);
    var own := PhiCopies(f.code[l], b, |f.code[l]|);
    var before, upTo := CopiesUpTo(f, off, b, t, j), CopiesUpTo(f, off, b, t, j + 1);
    AllIsUpTo(f, off, b, t);
    UpToPrefix(f, off, b, t, j + 1, |Successors(t)|);
    var all := AllCopies(f, b, t);
    assert upTo == before + own;
    forall i | 0 <= i < |own| ensures own[i] == all[|before| + i] { assert own[i] == upTo[|before| + i]; }
    CopiesConcat(f.decls, off, before, own);
  }

  lemma NoneBeforeReturn(f: Fn, off: Offsets, b: int, t: Inst)
    requires t.Ret? && SuccessorsFed(f, t)
    ensures CopiesPlaced(f.decls, off, AllCopies(f, b, t)) && CopiesCode(f.decls, off, AllCopies(f, b, t)) == []
  {
  }

  lemma {:induction false} BodyConcat(decls: map<nat, Decl>, off: Offsets, a: seq<Inst>, b: seq<Inst>)
    requires forall i :: 0 <= i < |a| ==> Lowerable(decls, off, a[i]) && !IsTerminator(a[i])
    requires forall i :: 0 <= i < |b| ==> Lowerable(decls, off, b[i]) && !IsTerminator(b[i])
    ensures forall i :: 0 <= i < |a + b| ==> Lowerable(decls, off, (a + b)[i]) && !IsTerminator((a + b)[i])
    ensures BodyCode(decls, off, a + b) == BodyCode(decls, off, a) + BodyCode(decls, off, b)
  {
    hide Lowerable, InstCode, IsTerminator;
    if |a| == 0 {
      assert a + b == b;
    } else {
      BodyConcat(decls, off, a[1..], b);
      var c := a + b;
      assert c[0] == a[0] && c[1..] == a[1..] + b;
    }
  }

  lemma BodyNext(decls: map<nat, Decl>, off: Offsets, body: seq<Inst>, n: nat)
    requires n < |body| && forall i :: 0 <= i < |body| ==> Lowerable(decls, off, body[i]) && !IsTerminator(body[i])
    ensures BodyCode(decls, off, body[..n + 1])
         == BodyCode(decls, off, body[..n]) + (if body[n].Phi? then [] else InstCode(decls, off, body[n]))
  {
    hide Lowerable, InstCode;
    assert body[..n + 1] == body[..n] + [body[n]];
    BodyConcat(decls, off, body[..n], [body[n]]);
    assert [body[n]][1..] == [];
    assert BodyCode(decls, off, []) == [];
  }

  lemma ReadyHere(f: Fn, c: Ctx, b: int)
    requires c.decls == f.decls && CodeOk(f, c.lay.off) && b in f.code
    ensures BlockReady(f, c.lay.off, b)
  {
    hide CodeOk, Lowerable, InstOk, CopiesPlaced, SuccessorsFed;
    BlockHasCode(f, c, b);
  }

  /** The first k blocks have their code. */
  ghost predicate GeneratedUpTo(f: Fn, c: Ctx, retTy: Opt<Ty>, code: map<int, seq<Instr>>, k: nat) {
    && (forall b :: b in code <==> exists j :: 0 <= j < k && j < |f.blocks| && f.blocks[j] == b)
    && (forall b ::
        b in code ==> BlockReady(f, c.lay.off, b) && code[b] == BlockCode(f, c.lay.off, c.lay.size, retTy, b))
  }

  lemma GeneratedNext(f: Fn, c: Ctx, retTy: Opt<Ty>, code: map<int, seq<Instr>>, k: nat, more: seq<Instr>)
    requires k < |f.blocks| && GeneratedUpTo(f, c, retTy, code, k) && BlockReady(f, c.lay.off, f.blocks[k])
    requires more == BlockCode(f, c.lay.off, c.lay.size, retTy, f.blocks[k])
    ensures GeneratedUpTo(f, c, retTy, code[f.blocks[k] := more], k + 1)
  {
    hide BlockCode, BlockReady;
  }

  /** The code does not depend on where the frame will be. */
  lemma AnyCall(f: Fn, a: Ctx, c: Ctx, retTy: Opt<Ty>, code: map<int, seq<Instr>>, k: nat)
    requires GeneratedUpTo(f, a, retTy, code, k) && a.lay == c.lay
    ensures GeneratedUpTo(f, c, retTy, code, k)
  {
    hide BlockCode, BlockReady;
  }

  lemma AllGenerated(f: Fn, c: Ctx, retTy: Opt<Ty>, code: map<int, seq<Instr>>)
    requires c.decls == f.decls && CodeOk(f, c.lay.off) && GeneratedUpTo(f, c, retTy, code, |f.blocks|)
    ensures Generated(f, c, retTy, code)
  {
    hide BlockCode, InstOk, NamesDistinct, BlockOk;
    forall b ensures b in code <==> b in f.code {
      if b in f.code {
        assert b in f.blocks;
      }
    }
  }

  // ---------- facts for Allocate ----------

  ghost predicate BlocksHaveCode(f: Fn) {
    forall b :: b in f.blocks ==> b in f.code
  }

  /** The names before this point are placed, and offset is the depth used. */
  ghost predicate Filled(f: Fn, off: map<nat, int>, offset: nat, args: nat, k: nat, n: nat) {
    && FnOk(f) && NamesDistinct(f) && FrameFits(f)
    && offset >= 16
    && Placed(f.decls, off, offset) && Deepest(f.decls, off, offset)
    && (forall v :: v in off <==> ArgNamed(f, args, v) || CodeNamed(f, k, n, v))
    && ArgsInOrder(f, off, args) && InstsInOrder(f, off, k, n)
  }

  ghost predicate ArgsInOrder(f: Fn, off: map<nat, int>, args: nat) {
    forall i :: 0 <= i < args && i < |f.args| ==> Highest(f.decls, off, BeforeArg(f, i), f.args[i].id)
  }

  /** Instruction i of block j is met before instruction n of block k. */
  predicate Earlier(f: Fn, j: int, i: int, k: nat, n: nat) {
    && 0 <= j < |f.blocks| && f.blocks[j] in f.code && 0 <= i < |f.code[f.blocks[j]]|
    && (j < k || (j == k && i < n))
  }

  ghost predicate InstsInOrder(f: Fn, off: map<nat, int>, k: nat, n: nat) {
    forall j, i :: Earlier(f, j, i, k, n) && !f.code[f.blocks[j]][i].IsVoid() ==>
      Highest(f.decls, off, BeforeInst(f, j, i), f.code[f.blocks[j]][i].id)
  }

  /** What is named before an instruction is named before every later one. */
  lemma NamedLater(f: Fn, j: nat, i: nat, k: nat, n: nat, v: nat)
    requires Earlier(f, j, i, k, n) && BeforeInst(f, j, i)(v)
    ensures BeforeInst(f, k, n)(v)
  {
  }

  /** A new name leaves the slots of the earlier ones the highest possible. */
  lemma OrderStays(f: Fn, off: map<nat, int>, args: nat, k: nat, n: nat, u: nat, at: int)
    requires args <= |f.args| && ArgsInOrder(f, off, args) && InstsInOrder(f, off, k, n) && u !in off
    requires !ArgNamed(f, args, u) && (Earlier(f, 0, 0, k, n) || k > 0 ==> !BeforeInst(f, k, n)(u))
    ensures ArgsInOrder(f, off[u := at], args) && InstsInOrder(f, off[u := at], k, n)
  {
    hide Highest, CodeNamed, DefinesName;
    forall i | 0 <= i < args ensures Highest(f.decls, off[u := at], BeforeArg(f, i), f.args[i].id) {
      HighestStays(f.decls, off, BeforeArg(f, i), f.args[i].id, u, at);
    }
    forall j, i | Earlier(f, j, i, k, n) && !f.code[f.blocks[j]][i].IsVoid()
      ensures Highest(f.decls, off[u := at], BeforeInst(f, j, i), f.code[f.blocks[j]][i].id)
    {
      if BeforeInst(f, j, i)(u) { NamedLater(f, j, i, k, n, u); }
      HighestStays(f.decls, off, BeforeInst(f, j, i), f.code[f.blocks[j]][i].id, u, at);
    }
  }

  lemma StartFrame(f: Fn)
    requires FnOk(f) && NamesDistinct(f) && FrameFits(f)
    ensures Filled(f, map[], PROLOGUE_OFFSET_BASE, 0, 0, 0) && ArgNeed(f.args, 0) == 0
  {
  }

  /** Room for one more name. */
  lemma PlaceOne(f: Fn, off: map<nat, int>, offset: nat, before: nat -> bool, v: nat, bound: nat)
    requires FnOk(f) && Placed(f.decls, off, offset) && offset >= 16 && v in f.decls && v !in off
    requires Deepest(f.decls, off, offset) && forall w :: before(w) <==> w in off
    requires offset <= bound && bound + 2 * f.decls[v].ty.Size() + 16 < TWO_31
    ensures var n := f.decls[v].ty.Size();
      var at := AlignBits(offset + n, n);
      && Placed(f.decls, off[v := -(at as int)], at + f.decls[v].body)
      && Highest(f.decls, off[v := -(at as int)], before, v)
      && Deepest(f.decls, off[v := -(at as int)], at + f.decls[v].body)
      && offset < at <= bound + 2 * n
  {
    hide AlignBits, AlignUp, Placed, FnOk, Deepest, Highest;
    AlignHere(offset + f.decls[v].ty.Size(), f.decls[v].ty);
    PlaceNext(f.decls, off, offset, v);
    HighestNext(f.decls, off, before, offset, v);
  }

  lemma NothingNamed(f: Fn, v: nat)
    ensures !CodeNamed(f, 0, 0, v)
  {
  }

  lemma PlaceArg(f: Fn, off: map<nat, int>, offset: nat, k: nat)
    requires k < |f.args| && Filled(f, off, offset, k, 0, 0) && offset <= 16 + ArgNeed(f.args, k)
    ensures var size := f.args[k].ty.Size();
      var at := AlignBits(offset + size, size);
      && Filled(f, off[f.args[k].id := -(at as int)], at, k + 1, 0, 0)
      && at <= 16 + ArgNeed(f.args, k + 1)
    ensures CodeNeed(f, 0) == 0
  {
    hide AlignBits, Placed, InstOk, CodeNamed, DefinesName, Deepest, Highest;
    var v := f.args[k].id;
    var size := f.args[k].ty.Size();
    assert f.decls[v] == Decl(f.args[k].ty, 0);
    assert !ArgNamed(f, k, v);
    NothingNamed(f, v);
    ArgNeedGrows(f.args, k + 1, |f.args|);
    forall w: nat ensures BeforeArg(f, k)(w) <==> w in off { NothingNamed(f, w); }
    PlaceOne(f, off, offset, BeforeArg(f, k), v, 16 + ArgNeed(f.args, k));
    OrderStays(f, off, k, 0, 0, v, -(AlignBits(offset + size, size) as int));
    forall w ensures ArgNamed(f, k + 1, w) <==> ArgNamed(f, k, w) || w == v {
      if w == v { assert f.args[k].id == w; }
    }
  }

  lemma CodeHere(f: Fn, k: nat)
    requires FnOk(f) && k < |f.blocks|
    ensures f.blocks[k] in f.code && BlocksHaveCode(f)
  {
    hide InstOk;
    var b := f.blocks[k];
    assert b in f.blocks;
  }

  lemma StartBlocks(f: Fn)
    requires FnOk(f)
    ensures BlocksHaveCode(f) && CodeNeed(f, 0) == 0
  {
    hide InstOk;
  }

  lemma StartBlock(f: Fn, k: nat)
    requires FnOk(f) && k < |f.blocks|
    ensures f.blocks[k] in f.code && BlocksHaveCode(f) && ListNeed(f.code[f.blocks[k]], 0) == 0
  {
    hide InstOk;
    CodeHere(f, k);
  }

  lemma Declared(decls: map<nat, Decl>, ins: Inst)
    requires InstOk(decls, ins)
    ensures !ins.IsVoid() ==> ins.id in decls && decls[ins.id] == ins.Needs()
  {
  }

  lemma InstDeclared(f: Fn, k: nat, n: nat)
    requires FnOk(f) && k < |f.blocks| && f.blocks[k] in f.code && n < |f.code[f.blocks[k]]|
    ensures var ins := f.code[f.blocks[k]][n]; !ins.IsVoid() ==> ins.id in f.decls && f.decls[ins.id] == ins.Needs()
  {
    hide InstOk;
    var b := f.blocks[k];
    assert InstOk(f.decls, f.code[b][n]);
    Declared(f.decls, f.code[b][n]);
  }

  lemma PlaceInst(f: Fn, off: map<nat, int>, offset: nat, k: nat, n: nat)
    requires k < |f.blocks| && f.blocks[k] in f.code && BlocksHaveCode(f) && n < |f.code[f.blocks[k]]|
    requires Filled(f, off, offset, |f.args|, k, n)
    requires offset <= 16 + ArgNeed(f.args, |f.args|) + CodeNeed(f, k) + ListNeed(f.code[f.blocks[k]], n)
    ensures var ins := f.code[f.blocks[k]][n];
      var bound := 16 + ArgNeed(f.args, |f.args|) + CodeNeed(f, k) + ListNeed(f.code[f.blocks[k]], n + 1);
      if ins.IsVoid() then !ins.Alloca? && Filled(f, off, offset, |f.args|, k, n + 1) && offset <= bound
      else
        var size := ins.Needs().ty.Size();
        var at := AlignBits(offset + size, size);
        var top := if ins.Alloca? then at + ins.size else at;
        Filled(f, off[ins.id := -(at as int)], top, |f.args|, k, n + 1) && top <= bound
  {
    hide AlignBits, Placed, InstOk, FnOk, NamesDistinct, ArgNamed, CodeNamed, Deepest, Highest, ArgsInOrder,
        InstsInOrder;
    var list := f.code[f.blocks[k]];
    var ins := list[n];
    forall w ensures CodeNamed(f, k, n + 1, w) <==>
        CodeNamed(f, k, n, w) || DefinesName(ins, w) { NamedNext(f, k, n, w); }
    NeedGrows(list, n + 1, |list|);
    CodeNeedGrows(f, k + 1, |f.blocks|);
    if !ins.IsVoid() {
      NextIsNew(f, k, n);
      InstDeclared(f, k, n);
      PlaceOne(f, off, offset, BeforeInst(f, k, n), ins.id,
          16 + ArgNeed(f.args, |f.args|) + CodeNeed(f, k) + ListNeed(list, n));
      var at: int := -(AlignBits(offset + ins.Needs().ty.Size(), ins.Needs().ty.Size()) as int);
      OrderStays(f, off, |f.args|, k, n, ins.id, at);
      InOrderNext(f, off[ins.id := at], k, n);
    } else {
      InOrderVoid(f, off, k, n);
    }
  }

  lemma InOrderNext(f: Fn, off: map<nat, int>, k: nat, n: nat)
    requires k < |f.blocks| && f.blocks[k] in f.code && n < |f.code[f.blocks[k]]| && InstsInOrder(f, off, k, n)
    requires !f.code[f.blocks[k]][n].IsVoid()
    requires Highest(f.decls, off, BeforeInst(f, k, n), f.code[f.blocks[k]][n].id)
    ensures InstsInOrder(f, off, k, n + 1)
  {
    hide Highest, BeforeInst;
    forall j, i | Earlier(f, j, i, k, n + 1) && !f.code[f.blocks[j]][i].IsVoid()
      ensures Highest(f.decls, off, BeforeInst(f, j, i), f.code[f.blocks[j]][i].id)
    {
      assert Earlier(f, j, i, k, n) || (j == k && i == n);
    }
  }

  lemma InOrderVoid(f: Fn, off: map<nat, int>, k: nat, n: nat)
    requires k < |f.blocks| && f.blocks[k] in f.code && n < |f.code[f.blocks[k]]| && InstsInOrder(f, off, k, n)
    requires f.code[f.blocks[k]][n].IsVoid()
    ensures InstsInOrder(f, off, k, n + 1)
  {
    hide Highest, BeforeInst;
    forall j, i | Earlier(f, j, i, k, n + 1) && !f.code[f.blocks[j]][i].IsVoid()
      ensures Highest(f.decls, off, BeforeInst(f, j, i), f.code[f.blocks[j]][i].id)
    {
      assert Earlier(f, j, i, k, n) || (j == k && i == n);
    }
  }

  lemma InOrderBlock(f: Fn, off: map<nat, int>, k: nat)
    requires k < |f.blocks| && f.blocks[k] in f.code && InstsInOrder(f, off, k, |f.code[f.blocks[k]]|)
    ensures InstsInOrder(f, off, k + 1, 0)
  {
    hide Highest, BeforeInst;
    forall j, i | Earlier(f, j, i, k + 1, 0) && !f.code[f.blocks[j]][i].IsVoid()
      ensures Highest(f.decls, off, BeforeInst(f, j, i), f.code[f.blocks[j]][i].id)
    {
      assert Earlier(f, j, i, k, |f.code[f.blocks[k]]|);
    }
  }

  lemma InOrderAll(f: Fn, off: map<nat, int>)
    requires ArgsInOrder(f, off, |f.args|) && InstsInOrder(f, off, |f.blocks|, 0)
    ensures InOrder(f, off)
  {
    hide Highest, BeforeInst, BeforeArg;
    forall k, n | 0 <= k < |f.blocks| && f.blocks[k] in f.code && 0 <= n < |f.code[f.blocks[k]]|
        && !f.code[f.blocks[k]][n].IsVoid()
      ensures Highest(f.decls, off, BeforeInst(f, k, n), f.code[f.blocks[k]][n].id)
    {
      assert Earlier(f, k, n, |f.blocks|, 0);
    }
  }

  lemma EndBlock(f: Fn, off: map<nat, int>, offset: nat, k: nat)
    requires k < |f.blocks| && f.blocks[k] in f.code && BlocksHaveCode(f)
    requires Filled(f, off, offset, |f.args|, k, |f.code[f.blocks[k]]|)
    ensures Filled(f, off, offset, |f.args|, k + 1, 0)
    ensures CodeNeed(f, k + 1) == CodeNeed(f, k) + ListNeed(f.code[f.blocks[k]], |f.code[f.blocks[k]]|)
  {
    hide Placed, FnOk, NamesDistinct, ArgNamed, CodeNamed, ArgsInOrder, InstsInOrder, Deepest;
    InOrderBlock(f, off, k);
    forall v ensures CodeNamed(f, k + 1, 0, v) <==> CodeNamed(f, k, |f.code[f.blocks[k]]|, v) { NamedBlock(f, k, v); }
  }

  /** Deepening a frame keeps what is in it. */
  lemma Deepen(decls: map<nat, Decl>, off: map<nat, int>, top: int, deeper: int)
    requires Placed(decls, off, top) && top <= deeper
    ensures Placed(decls, off, deeper)
  {
  }

  lemma EndFrame(f: Fn, off: map<nat, int>, offset: nat)
    requires Filled(f, off, offset, |f.args|, |f.blocks|, 0) && BlocksHaveCode(f)
    requires offset <= 16 + ArgNeed(f.args, |f.args|) + CodeNeed(f, |f.blocks|)
    ensures FrameFor(f, Layout(off, AlignBits(offset, PROLOGUE_ALIGN))) && AlignBits(offset, PROLOGUE_ALIGN) < TWO_31
  {
    hide AlignBits, AlignUp, Placed, FnOk, NamesDistinct, ArgNamed, CodeNamed, Named, ArgsInOrder, InstsInOrder,
        InOrder;
    AlignHere(offset, Ptr);
    var size := AlignUp(offset, 16);
    InOrderAll(f, off);
    forall s: int | s % 16 == 0 && s >= 16 && Placed(f.decls, off, s) ensures size <= s {
      assert offset <= s && size % 16 == 0 && size < offset + 16;
    }
    Deepen(f.decls, off, offset, size);
    forall v ensures Named(f, v) <==> ArgNamed(f, |f.args|, v) || CodeNamed(f, |f.blocks|, 0, v) { NamedAll(f, v); }
    assert size % 16 == 0;
  }

  // ---------- there is one such frame ----------

  lemma HighestSame(decls: map<nat, Decl>, off: map<nat, int>, off': map<nat, int>, before: nat -> bool, v: nat)
    requires Highest(decls, off, before, v) && Highest(decls, off', before, v)
    requires forall w :: before(w) ==> (w in off <==> w in off') && (w in off ==> off[w] == off'[w])
    ensures off[v] == off'[v]
  {
    hide Aligned;
    SameBelow(decls, off, off', before, off'[v] + decls[v].ty.Size());
    SameBelow(decls, off', off, before, off[v] + decls[v].ty.Size());
  }

  ghost predicate SameSlot(l: Layout, m: Layout, v: nat) {
    v in l.off && v in m.off && l.off[v] == m.off[v]
  }

  lemma {:induction false} ArgsSame(f: Fn, l: Layout, m: Layout, k: nat)
    requires FrameFor(f, l) && FrameFor(f, m) && k <= |f.args|
    ensures forall i :: 0 <= i < k ==> SameSlot(l, m, f.args[i].id)
  {
    hide Highest, Placed, Named;
    if k > 0 {
      ArgsSame(f, l, m, k - 1);
      var v := f.args[k - 1].id;
      assert Highest(f.decls, l.off, BeforeArg(f, k - 1), v) && Highest(f.decls, m.off, BeforeArg(f, k - 1), v);
      HighestIn(f.decls, l.off, BeforeArg(f, k - 1), v);
      HighestIn(f.decls, m.off, BeforeArg(f, k - 1), v);
      forall w: nat | BeforeArg(f, k - 1)(w) ensures SameSlot(l, m, w) {}
      HighestSame(f.decls, l.off, m.off, BeforeArg(f, k - 1), v);
    }
  }

  lemma HighestIn(decls: map<nat, Decl>, off: map<nat, int>, before: nat -> bool, v: nat)
    requires Highest(decls, off, before, v)
    ensures v in off && v in decls
  {
  }

  lemma {:induction false} InstsSame(f: Fn, l: Layout, m: Layout, k: nat, n: nat)
    requires FrameFor(f, l) && FrameFor(f, m) && k <= |f.blocks|
    requires n > 0 ==> k < |f.blocks| && f.blocks[k] in f.code && n <= |f.code[f.blocks[k]]|
    ensures forall w: nat :: BeforeInst(f, k, n)(w) ==> SameSlot(l, m, w)
    decreases k, n
  {
    hide Highest, Placed, Named, DefinesName;
    if n > 0 {
      InstsSame(f, l, m, k, n - 1);
      forall w: nat | BeforeInst(f, k, n)(w) ensures SameSlot(l, m, w) {
        NamedNext(f, k, n - 1, w);
        if !BeforeInst(f, k, n - 1)(w) { InstSame(f, l, m, k, n - 1, w); }
      }
    } else if k > 0 {
      if f.blocks[k - 1] in f.code {
        InstsSame(f, l, m, k - 1, |f.code[f.blocks[k - 1]]|);
        forall w: nat | BeforeInst(f, k, 0)(w) ensures SameSlot(l, m, w) { NamedBlock(f, k - 1, w); }
      } else {
        InstsSame(f, l, m, k - 1, 0);
        forall w: nat | BeforeInst(f, k, 0)(w) ensures BeforeInst(f, k - 1, 0)(w) {}
      }
    } else {
      ArgsSame(f, l, m, |f.args|);
      forall w: nat | BeforeInst(f, 0, 0)(w) ensures SameSlot(l, m, w) { NothingNamed(f, w); }
    }
  }

  lemma InstSame(f: Fn, l: Layout, m: Layout, k: nat, n: nat, v: nat)
    requires FrameFor(f, l) && FrameFor(f, m) && k < |f.blocks| && f.blocks[k] in f.code && n < |f.code[f.blocks[k]]|
    requires DefinesName(f.code[f.blocks[k]][n], v)
    requires forall w: nat :: BeforeInst(f, k, n)(w) ==> SameSlot(l, m, w)
    ensures SameSlot(l, m, v)
  {
    hide Highest, Placed, Named, BeforeInst;
    HighestIn(f.decls, l.off, BeforeInst(f, k, n), v);
    HighestIn(f.decls, m.off, BeforeInst(f, k, n), v);
    HighestSame(f.decls, l.off, m.off, BeforeInst(f, k, n), v);
  }

  /** The frame is determined: any two are the same, offset by offset and in size. */
  lemma FrameUnique(f: Fn, l: Layout, m: Layout)
    requires FnOk(f) && FrameFor(f, l) && FrameFor(f, m)
    ensures l == m
  {
    InstsSame(f, l, m, |f.blocks|, 0);
    hide Placed, FnOk, Named, InOrder;
    forall v ensures (v in l.off <==> v in m.off) && (v in l.off ==> l.off[v] == m.off[v]) {
      if v in l.off {
        NamedAll(f, v);
        assert BeforeInst(f, |f.blocks|, 0)(v);
      }
    }
    assert l.off == m.off;
    assert l.size % 16 == 0 && m.size % 16 == 0;
  }
}
