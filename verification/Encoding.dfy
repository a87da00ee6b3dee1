/** Which of the generated instructions fit their immediate fields. */
module Encoding {
  import opened Bits
  import opened LoongArch
  import opened TypedIr
  import opened FrameLayout
  import opened Lowering
  import opened FrameCode
  import opened LoweringSound
  import opened TypedRun
  import opened PhiLowering
  import opened FunctionSound

  /** Offsets are 64-bit numbers, as those of every allocated frame are. */
  predicate OffsetsOk(off: Offsets) {
    forall v :: v in off ==> IsInt64(off[v])
  }

  lemma LargeEncodable(val: int, reg: Reg)
    requires reg != ZERO
    ensures IsInt32(val) ==> Encodable(LoadLargeInt32(val, reg))
    ensures IsInt64(val) ==> Encodable(LoadLargeInt64(val, reg))
  {
    hide LoadLargeInt32, LoadLargeInt64;
    var s := State(seq(32, _ => 0), map[]);
    if IsInt32(val) { LoadLargeInt32Exact(g => 0, val, reg, s); }
    if IsInt64(val) { LoadLargeInt64Exact(g => 0, val, reg, s); }
  }

  /** The short forms are used wherever they fit: numbers, offsets and frames within
      12 bits take one instruction where others take two, five or six. */
  lemma FormLengths(decls: map<nat, Decl>, off: Offsets, t: Ty, n: int, at: int, size: nat, reg: Reg)
    ensures |LoadToGreg(decls, off, ConstInt(t, n), reg)| == if -2048 <= n <= 2047 then 1 else 2
    ensures |LoadFromStack(at, t.Size(), reg)| == if -2048 <= at <= 2047 then 1 else 6
    ensures |StoreFromGreg(at, t.Size(), reg)| == if -2048 <= at <= 2047 then 1 else 6
    ensures |SlotAddress(at)| == if -2048 <= at <= 2047 then 1 else 5
    ensures |Prologue(size)| == (if size <= 2048 then 4 else 8) && |Epilogue(size)| == |Prologue(size)|
  {
    hide Signed20;
  }

  lemma Joined(a: seq<Instr>, b: seq<Instr>)
    ensures Encodable(a + b) <==> Encodable(a) && Encodable(b)
  {
    if Encodable(a + b) {
      forall i | 0 <= i < |a| ensures a[i].Encodable() { assert a[i] == (a + b)[i]; }
      forall i | 0 <= i < |b| ensures b[i].Encodable() { assert b[i] == (a + b)[|a| + i]; }
    }
  }

  lemma StackEncodable(at: int, n: nat, reg: Reg)
    requires IsInt64(at) && reg != ZERO && (n == 1 || n == 4 || n == 8)
    ensures Encodable(LoadFromStack(at, n, reg)) && Encodable(StoreFromGreg(at, n, reg))
  {
    hide LoadLargeInt64;
    LargeEncodable(at, reg);
    LargeEncodable(at, T8);
  }

  lemma OperandEncodable(decls: map<nat, Decl>, off: Offsets, op: Operand, t: Ty, reg: Reg)
    requires OffsetsOk(off) && HasPlace(decls, off, op) && OperandOk(decls, op, t) && reg != ZERO
    ensures Encodable(LoadToGreg(decls, off, op, reg))
  {
    hide LoadLargeInt32, LoadFromStack;
    match op
    case ConstInt(_, n) => LargeEncodable(n, reg);
    case GlobalVar(_) =>
    case Name(v) => StackEncodable(off[v], decls[v].ty.Size(), reg);
  }

  lemma ResultEncodable(decls: map<nat, Decl>, off: Offsets, v: nat, reg: Reg)
    requires OffsetsOk(off) && HasSlot(decls, off, v) && reg != ZERO
    ensures Encodable(StoreResult(decls, off, v, reg))
  {
    hide StoreFromGreg;
    StackEncodable(off[v], decls[v].ty.Size(), reg);
  }

  lemma AddressEncodable(at: int)
    requires IsInt64(at)
    ensures Encodable(SlotAddress(at))
  {
    hide LoadLargeInt64;
    LargeEncodable(at, T0);
  }

  /** Every instruction can be encoded, except an alloca of more than 2048 bytes. */
  lemma InstEncodable(decls: map<nat, Decl>, off: Offsets, ins: Inst)
    requires OffsetsOk(off) && Lowerable(decls, off, ins) && InstOk(decls, ins) && !ins.Phi? && !IsTerminator(ins)
    ensures Encodable(InstCode(decls, off, ins)) <==> (ins.Alloca? ==> ins.size <= 2048)
  {
    hide LoadToGreg, StoreResult, SlotAddress;
    match ins
    case Binary(id, op, a, b) =>
      OperandEncodable(decls, off, a, I32, T0);
      OperandEncodable(decls, off, b, I32, T1);
      ResultEncodable(decls, off, id, T2);
    case Icmp(id, op, a, b) =>
      OperandEncodable(decls, off, a, I32, T1);
      OperandEncodable(decls, off, b, I32, T2);
      ResultEncodable(decls, off, id, T0);
    case Zext(id, a) =>
      OperandEncodable(decls, off, a, I1, T0);
      ResultEncodable(decls, off, id, T0);
    case Alloca(id, n) =>
      AllocaEncodable(decls, off, ins);
    case Load(id, t, p) =>
      OperandEncodable(decls, off, p, Ptr, T0);
      ResultEncodable(decls, off, id, T0);
    case Store(a, p) =>
      OperandEncodable(decls, off, p, Ptr, T1);
      OperandEncodable(decls, off, a, TypeOf(decls, a), T0);
    case Gep(id, base, idxs, elem) =>
      GepEncodable(decls, off, ins);
  }

  lemma EncodableOne(ins: Instr)
    ensures Encodable([ins]) <==> ins.Encodable()
  {
    assert [ins][0] == ins;
  }

  lemma EncodableNone()
    ensures Encodable([])
  {
  }

  lemma AllocaEncodable(decls: map<nat, Decl>, off: Offsets, ins: Inst)
    requires OffsetsOk(off) && Lowerable(decls, off, ins) && ins.Alloca?
    ensures Encodable(InstCode(decls, off, ins)) <==> ins.size <= 2048
  {
    hide StoreResult, SlotAddress, Encodable;
    AddressEncodable(off[ins.id]);
    ResultEncodable(decls, off, ins.id, T0);
    var down := AddiD(T0, T0, -(ins.size as int));
    Joined(SlotAddress(off[ins.id]) + [down], StoreResult(decls, off, ins.id, T0));
    Joined(SlotAddress(off[ins.id]), [down]);
    EncodableOne(down);
  }

  lemma GepEncodable(decls: map<nat, Decl>, off: Offsets, ins: Inst)
    requires OffsetsOk(off) && Lowerable(decls, off, ins) && InstOk(decls, ins) && ins.Gep?
    ensures Encodable(InstCode(decls, off, ins))
  {
    hide LoadToGreg, StoreResult;
    OperandEncodable(decls, off, ins.base, Ptr, T0);
    OperandEncodable(decls, off, GepIndex(ins.idxs), I32, T2);
    ResultEncodable(decls, off, ins.id, T0);
  }

  // ---------- whole blocks ----------

  lemma {:induction false} BodyEncodable(decls: map<nat, Decl>, off: Offsets, list: seq<Inst>)
    requires OffsetsOk(off)
    requires forall i ::
        0 <= i < |list| ==> Lowerable(decls, off, list[i]) && !IsTerminator(list[i]) && InstOk(decls, list[i])
    ensures Encodable(BodyCode(decls, off, list)) <==> forall i ::
        0 <= i < |list| && list[i].Alloca? ==> list[i].size <= 2048
  {
    hide Lowerable, InstOk, InstCode, Encodable;
    if |list| == 0 {
      EncodableNone();
    } else {
      var rest := BodyCode(decls, off, list[1..]);
      BodyEncodable(decls, off, list[1..]);
      if list[0].Phi? {
        assert BodyCode(decls, off, list) == [] + rest == rest;
      } else {
        InstEncodable(decls, off, list[0]);
        Joined(InstCode(decls, off, list[0]), rest);
      }
      forall i | 0 < i < |list| ensures list[i] == list[1..][i - 1] {}
    }
  }

  lemma {:induction false} CopiesEncodable(decls: map<nat, Decl>, off: Offsets, cs: seq<Copy>)
    requires OffsetsOk(off) && CopiesPlaced(decls, off, cs)
    requires forall i :: 0 <= i < |cs| ==> OperandOk(decls, cs[i].src, decls[cs[i].dst].ty)
    ensures Encodable(CopiesCode(decls, off, cs))
  {
    hide LoadToGreg, StoreResult, Encodable, OperandOk;
    if |cs| == 0 {
      EncodableNone();
    } else {
      var n := |cs| - 1;
      CopiesEncodable(decls, off, cs[..n]);
      var cp := cs[n];
      OperandEncodable(decls, off, cp.src, decls[cp.dst].ty, T0);
      ResultEncodable(decls, off, cp.dst, T0);
      Joined(LoadToGreg(decls, off, cp.src, T0), StoreResult(decls, off, cp.dst, T0));
      Joined(CopiesCode(decls, off, cs[..n]), CopyCode(decls, off, cp));
    }
  }

  lemma TermEncodable(decls: map<nat, Decl>, off: Offsets, size: nat, retTy: Opt<Ty>, t: Inst)
    requires OffsetsOk(off) && size < TWO_31 && Lowerable(decls, off, t) && InstOk(decls, t) && IsTerminator(t)
    ensures Encodable(TermCode(decls, off, size, retTy, t)) <==> (t.Ret? ==> size != 2048)
  {
    hide LoadToGreg, Epilogue;
    match t
    case Br(l) =>
    case CondBr(c, yes, no) => OperandEncodable(decls, off, c, I1, T0);
    case Ret(r) =>
      FrameEncodable(size);
      if r.Some? { OperandEncodable(decls, off, r.value, TypeOf(decls, r.value), A0); }
      Joined(RetValue(decls, off, retTy, r), Epilogue(size));
  }

  /** A block can be encoded exactly when its allocas take at most 2048 bytes each
      and it does not return from a frame of 2048 bytes. */
  lemma BlockEncodable(f: Fn, l: Layout, retTy: Opt<Ty>, b: int)
    requires CodeOk(f, l.off) && OffsetsOk(l.off) && l.size < TWO_31 && b in f.code
    requires BlockReady(f, l.off, b)
    ensures Encodable(BlockCode(f, l.off, l.size, retTy, b)) <==>
      (&& (forall i :: 0 <= i < |f.code[b]| && f.code[b][i].Alloca? ==> f.code[b][i].size <= 2048)
       && (Last(f, b).Ret? ==> l.size != 2048))
  {
    hide BodyCode, CopiesCode, TermCode, Encodable, Lowerable, InstOk, AllCopies, CodeOk, CopiesPlaced, OperandOk;
    var c := Anywhere(f, l);
    BlockHasCode(f, c, b);
    CopiesReady(f, c, b);
    var list := f.code[b];
    var body := list[..|list| - 1];
    var cs := AllCopies(f, b, Last(f, b));
    BodyEncodable(f.decls, l.off, body);
    TypedCopies(c, cs);
    CopiesEncodable(f.decls, l.off, cs);
    TermEncodable(f.decls, l.off, l.size, retTy, Last(f, b));
    var front := BodyCode(f.decls, l.off, body) + CopiesCode(f.decls, l.off, cs);
    Joined(BodyCode(f.decls, l.off, body), CopiesCode(f.decls, l.off, cs));
    Joined(front, TermCode(f.decls, l.off, l.size, retTy, Last(f, b)));
    forall i | 0 <= i < |list| - 1 ensures list[i] == body[i] {}
    assert !list[|list| - 1].Alloca?;
  }

  lemma TypedCopies(c: Ctx, cs: seq<Copy>)
    requires CopiesOk(c, cs) && CopiesPlaced(c.decls, c.lay.off, cs)
    ensures forall i :: 0 <= i < |cs| ==> OperandOk(c.decls, cs[i].src, c.decls[cs[i].dst].ty)
  {
    forall i | 0 <= i < |cs| ensures OperandOk(c.decls, cs[i].src, c.decls[cs[i].dst].ty) { assert CopyOk(c, cs[i]); }
  }

  /** Some call with this layout; where it is does not matter here. */
  ghost function Anywhere(f: Fn, l: Layout): Ctx {
    Ctx(f.decls, l, 0, 0, 0)
  }

  /** The offsets of an allocated frame. */
  lemma FrameOffsetsOk(f: Fn, l: Layout)
    requires RoomFor(f, l) && l.size < TWO_31
    ensures OffsetsOk(l.off)
  {
    forall v | v in l.off ensures IsInt64(l.off[v]) {
      assert -(l.size as int) <= Low(f.decls, l.off, v) <= l.off[v] < High(f.decls, l.off, v) <= -16;
    }
  }

  // ---------- whole functions ----------

  lemma {:induction false} ArgsEncodable(f: Fn, l: Layout, n: nat)
    requires OffsetsOk(l.off) && n <= |f.args| <= 8 && forall i ::
        0 <= i < |f.args| ==> HasSlot(f.decls, l.off, f.args[i].id)
    ensures Encodable(StoreArgs(f.decls, l.off, f.args, n))
  {
    hide StoreResult, Encodable;
    if n == 0 {
      EncodableNone();
    } else {
      ArgsEncodable(f, l, n - 1);
      ResultEncodable(f.decls, l.off, f.args[n - 1].id, A0 + (n - 1));
      Joined(StoreArgs(f.decls, l.off, f.args, n - 1), StoreResult(f.decls, l.off, f.args[n - 1].id, A0 + (n - 1)));
    }
  }

  predicate SmallAllocas(f: Fn) {
    forall b, i :: b in f.code && 0 <= i < |f.code[b]| && f.code[b][i].Alloca? ==> f.code[b][i].size <= 2048
  }

  lemma GeneratedAt(f: Fn, c: Ctx, retTy: Opt<Ty>, code: map<int, seq<Instr>>, b: int)
    requires c.decls == f.decls && CodeOk(f, c.lay.off) && Generated(f, c, retTy, code) && b in f.code
    ensures b in code && BlockReady(f, c.lay.off, b) && code[b] == BlockCode(f, c.lay.off, c.lay.size, retTy, b)
  {
    hide CodeOk, BlockCode, BlockReady;
    BlockHasCode(f, c, b);
  }

  /** A function can be encoded, its entry, all blocks and the epilogue behind them,
      exactly when its allocas take at most 2048 bytes each and its frame is not one
      of 2048 bytes. */
  lemma FunctionEncodable(f: Fn, c: Ctx, retTy: Opt<Ty>, code: map<int, seq<Instr>>)
    requires c.decls == f.decls && CodeOk(f, c.lay.off) && RoomFor(f, c.lay) && c.lay.size < TWO_31
        && Generated(f, c, retTy, code)
    requires |f.args| <= 8 && forall i :: 0 <= i < |f.args| ==> HasSlot(f.decls, c.lay.off, f.args[i].id)
    ensures (Encodable(EntryCode(f, c.lay)) && (forall b :: b in code ==> Encodable(code[b]))
        && Encodable(Epilogue(c.lay.size)))
       <==> (SmallAllocas(f) && c.lay.size != 2048)
  {
    hide CodeOk, RoomFor, Generated, Encodable, Prologue, Epilogue, StoreArgs, BlockReady, BlockCode, HasSlot;
    var l := c.lay;
    FrameOffsetsOk(f, l);
    FrameEncodable(l.size);
    ArgsEncodable(f, l, |f.args|);
    Joined(Prologue(l.size), StoreArgs(f.decls, l.off, f.args, |f.args|));
    SameBlocks(f, c, retTy, code);
    forall b | b in f.code
      ensures b in code && |f.code[b]| > 0
      ensures Encodable(code[b]) <==>
        (&& (forall i :: 0 <= i < |f.code[b]| && f.code[b][i].Alloca? ==> f.code[b][i].size <= 2048)
         && (Last(f, b).Ret? ==> l.size != 2048))
    {
      TerminatorFacts(f, l.off, b);
      GeneratedAt(f, c, retTy, code, b);
      BlockEncodable(f, l, retTy, b);
    }
  }
}
