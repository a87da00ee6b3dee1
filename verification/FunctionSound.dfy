/** Whole functions without calls: from the call to the return, the generated
    code computes what the typed instructions compute. */
module FunctionSound {
  import opened Bits
  import opened LoongArch
  import opened TypedIr
  import opened FrameLayout
  import opened Lowering
  import opened LoweringSound
  import opened InstSound
  import opened Copies
  import opened TypedRun
  import opened PhiEdges
  import opened SlotRuns
  import opened PhiLowering
  import opened FrameCode
  import opened CalleeSaved

  /** What code generation needs of a block: see Lowerable; besides, its successors
      have code, and phis have a first pair and placed values. */
  ghost predicate BlockOk(f: Fn, off: Offsets, b: int) {
    && b in f.code
    && |f.code[b]| > 0
    && var list := f.code[b];
       var t := list[|list| - 1];
    && IsTerminator(t)
    && (forall l :: l in Successors(t) ==> l in f.code)
    && (forall i :: 0 <= i < |list| ==> Lowerable(f.decls, off, list[i]))
    && (forall i :: 0 <= i < |list| - 1 ==> !IsTerminator(list[i]))
    && PhisFed(list)
    && (forall i :: 0 <= i < |list| && list[i].Phi? ==> PhiPlaced(f.decls, off, list[i]))
  }

  predicate PhiPlaced(decls: map<nat, Decl>, off: Offsets, phi: Inst)
    requires phi.Phi?
  {
    forall k :: 0 <= k < |phi.pairs| ==> HasPlace(decls, off, phi.pairs[k].value)
  }

  ghost predicate CodeOk(f: Fn, off: Offsets) {
    && FnOk(f)
    && NamesDistinct(f)
    && (forall b :: b in f.code ==> BlockOk(f, off, b))
  }

  function BodyCode(decls: map<nat, Decl>, off: Offsets, list: seq<Inst>): seq<Instr>
    requires forall i :: 0 <= i < |list| ==> Lowerable(decls, off, list[i]) && !IsTerminator(list[i])
  {
    if |list| == 0 then []
    else
      assert Lowerable(decls, off, list[0]) && !IsTerminator(list[0]);
      (if list[0].Phi? then [] else InstCode(decls, off, list[0])) + BodyCode(decls, off, list[1..])
  }

  // ---------- bodies ----------

  lemma {:induction false} BodySound(c: Ctx, sym: nat -> int, list: seq<Inst>, ir: IrState, s: State)
    requires CtxOk(c) && Matches(c, ir, s)
    requires forall i ::
        0 <= i < |list| ==> Lowerable(c.decls, c.lay.off, list[i]) && !IsTerminator(list[i]) && InstOk(c.decls, list[i])
    requires Steps(c.decls, sym, Place(c), Free(c), NonPhis(list), ir).Some?
    ensures KeepsStep(c, sym, BodyCode(c.decls, c.lay.off, list), s,
        Steps(c.decls, sym, Place(c), Free(c), NonPhis(list), ir).value)
    decreases |list|
  {
    hide Matches, CtxOk, InstCode, Step, Place, Free, Lowerable, InstOk;
    if |list| > 0 {
      if list[0].Phi? {
        BodySound(c, sym, list[1..], ir, s);
        assert [] + BodyCode(c.decls, c.lay.off, list[1..]) == BodyCode(c.decls, c.lay.off, list[1..]);
      } else {
        assert NonPhis(list)[0] == list[0] && NonPhis(list)[1..] == NonPhis(list[1..]);
        StepSound(c, sym, list[0], ir, s);
        var code := InstCode(c.decls, c.lay.off, list[0]);
        var s1 := Exec(sym, code, s).s;
        ExecThen(sym, code, BodyCode(c.decls, c.lay.off, list[1..]), s, s1);
        BodySound(c, sym, list[1..], Step(c.decls, sym, Place(c), Free(c), list[0], ir).value, s1);
      }
    }
  }

  // ---------- blocks ----------

  /** What the code of a block is made from is there. */
  ghost predicate BlockReady(f: Fn, off: Offsets, b: int) {
    && b in f.code && |f.code[b]| > 0 && IsTerminator(Last(f, b)) && SuccessorsFed(f, Last(f, b))
    && (forall i :: 0 <= i < |f.code[b]| ==> Lowerable(f.decls, off, f.code[b][i]))
    && (forall i :: 0 <= i < |f.code[b]| - 1 ==> !IsTerminator(f.code[b][i]))
    && CopiesPlaced(f.decls, off, AllCopies(f, b, Last(f, b)))
  }

  /** The body of a block and the copies for its successors. */
  function FrontCode(f: Fn, off: Offsets, b: int): seq<Instr>
    requires BlockReady(f, off, b)
  {
    BodyCode(f.decls, off, Body(f, b)) + CopiesCode(f.decls, off, AllCopies(f, b, Last(f, b)))
  }

  /** The code of a block: its body, the copies for its successors, its terminator. */
  function BlockCode(f: Fn, off: Offsets, size: nat, retTy: Opt<Ty>, b: int): seq<Instr>
    requires BlockReady(f, off, b)
  {
    FrontCode(f, off, b) + TermCode(f.decls, off, size, retTy, Last(f, b))
  }

  predicate CopiesPlaced(decls: map<nat, Decl>, off: Offsets, cs: seq<Copy>) {
    forall i :: 0 <= i < |cs| ==> HasPlace(decls, off, cs[i].src) && HasSlot(decls, off, cs[i].dst)
  }

  /** The copies of a well-formed block are well typed and have their places. */
  lemma CopiesReady(f: Fn, c: Ctx, b: int)
    requires c.decls == f.decls && CodeOk(f, c.lay.off) && b in f.code
    ensures |f.code[b]| > 0 && SuccessorsFed(f, Last(f, b)) && CopiesOk(c, AllCopies(f, b, Last(f, b)))
  {
    hide AllCopies, NamesDistinct, PhisFed, Lowerable, InstOk;
    var t := Last(f, b);
    forall l | l in Successors(t) ensures l in f.code && PhisFed(f.code[l]) { assert BlockOk(f, c.lay.off, l); }
    var cs := AllCopies(f, b, t);
    forall k | 0 <= k < |cs| ensures CopyOk(c, cs[k]) {
      var l, i := CopyOrigin(f, b, t, k);
      assert BlockOk(f, c.lay.off, l);
      PhiCopyOk(f, c, l, i, b);
      var one := PhiCopy(f.code[l][i], b);
      assert one == [cs[k]] && CopyOk(c, one[0]);
    }
  }

  lemma PhiCopyOk(f: Fn, c: Ctx, l: int, i: nat, b: int)
    requires c.decls == f.decls && FnOk(f) && l in f.code && i < |f.code[l]| && BlockOk(f, c.lay.off, l)
    requires f.code[l][i].Phi? && |f.code[l][i].pairs| > 0
    ensures forall k :: 0 <= k < |PhiCopy(f.code[l][i], b)| ==> CopyOk(c, PhiCopy(f.code[l][i], b)[k])
  {
    hide HasPlace, OperandOk;
    var phi := f.code[l][i];
    assert InstOk(f.decls, phi) && Lowerable(f.decls, c.lay.off, phi);
    assert PhiPlaced(f.decls, c.lay.off, phi);
  }

  /** Enough for the code of the block to exist. */
  lemma BlockHasCode(f: Fn, c: Ctx, b: int)
    requires c.decls == f.decls && CodeOk(f, c.lay.off) && b in f.code
    ensures BlockReady(f, c.lay.off, b)
    ensures forall i :: 0 <= i < |f.code[b]| ==> InstOk(f.decls, f.code[b][i])
  {
    hide AllCopies, NamesDistinct, PhisFed, Lowerable, InstOk, OperandOk, HasPlace, HasSlot;
    assert BlockOk(f, c.lay.off, b);
    CopiesReady(f, c, b);
    var cs := AllCopies(f, b, Last(f, b));
    forall i | 0 <= i < |cs| ensures HasPlace(f.decls, c.lay.off, cs[i].src) && HasSlot(f.decls, c.lay.off, cs[i].dst) {
      assert CopyOk(c, cs[i]);
    }
  }

  lemma {:induction false} BodySpares(decls: map<nat, Decl>, off: Offsets, list: seq<Inst>)
    requires forall i :: 0 <= i < |list| ==> Lowerable(decls, off, list[i]) && !IsTerminator(list[i])
    ensures SparesAll(BodyCode(decls, off, list))
  {
    hide Lowerable, InstCode, Spares;
    if |list| > 0 {
      BodySpares(decls, off, list[1..]);
      if !list[0].Phi? { InstSpares(decls, off, list[0]); }
    }
  }

  /** The code of a block leaves the caller's registers alone. */
  lemma BlockSpares(f: Fn, off: Offsets, size: nat, retTy: Opt<Ty>, b: int)
    requires BlockReady(f, off, b)
    ensures SparesAll(BlockCode(f, off, size, retTy, b))
  {
    hide Lowerable, BodyCode, CopiesCode, TermCode, Spares, AllCopies, SuccessorsFed;
    BodySpares(f.decls, off, Body(f, b));
    CopiesSpare(f.decls, off, AllCopies(f, b, Last(f, b)));
    TermSpares(f.decls, off, size, retTy, Last(f, b));
  }

  // ---------- terminators ----------

  lemma ExecBranch(sym: nat -> int, yes: int, no: int, s: State)
    ensures Exec(sym, [Beqz(T0, no), B(yes)], s) == Stop(s, To(if s.Get(T0) != 0 then yes else no))
  {
    assert [Beqz(T0, no), B(yes)][1..] == [B(yes)];
  }

  lemma ExecJump(sym: nat -> int, l: int, s: State)
    ensures Exec(sym, [B(l)], s) == Stop(s, To(l))
  {
  }

  /** A branch goes where the condition says; the values are those after the copies. */
  lemma BranchSound(c: Ctx, sym: nat -> int, retTy: Opt<Ty>, t: Inst, ir: IrState, s: State)
    requires CtxOk(c) && Matches(c, ir, s) && (t.Br? || t.CondBr?) && Lowerable(c.decls, c.lay.off, t)
        && InstOk(c.decls, t)
    requires Choose(sym, ir.env, t).Goto?
    ensures var stop := Exec(sym, TermCode(c.decls, c.lay.off, c.lay.size, retTy, t), s);
      stop.next == To(Choose(sym, ir.env, t).l) && Matches(c, ir, stop.s)
  {
    hide Exec, Matches, CtxOk, LoadToGreg, Eval;
    match t
    case Br(l) => ExecJump(sym, l, s);
    case CondBr(cond, yes, no) =>
      LoadOperand(c, sym, ir, s, cond, I1, T0);
      var s1 := s.Set(T0, Eval(sym, ir.env, cond).value);
      ExecThen(sym, LoadToGreg(c.decls, c.lay.off, cond, T0), [Beqz(T0, no), B(yes)], s, s1);
      ExecBranch(sym, yes, no, s1);
  }

  /** What the caller finds after the return. */
  ghost predicate Restored(c: Ctx, retTy: Opt<Ty>, v: Opt<int>, mem: Bytes, s: State) {
    && s.Get(SP) == c.fp && s.Get(FP) == c.oldFp && s.Get(RA) == c.ra
    && (v.Some? && (retTy == Some(I32) || retTy == Some(Ptr)) ==> s.Get(A0) == v.value)
    && (v.None? ==> s.Get(A0) == 0)
    && MemAgrees(c, mem, s.mem)
  }

  lemma RetValueSound(c: Ctx, sym: nat -> int, retTy: Opt<Ty>, r: Opt<Operand>, ir: IrState, s: State)
    requires CtxOk(c) && Matches(c, ir, s) && Lowerable(c.decls, c.lay.off, Ret(r)) && InstOk(c.decls, Ret(r))
    requires Choose(sym, ir.env, Ret(r)).Leave?
    ensures var stop := Exec(sym, RetValue(c.decls, c.lay.off, retTy, r), s);
      var v := Choose(sym, ir.env, Ret(r)).v;
      && stop.next == Fall && Matches(c, ir, stop.s)
      && (v.Some? && (retTy == Some(I32) || retTy == Some(Ptr)) ==> stop.s.Get(A0) == v.value)
      && (v.None? ==> stop.s.Get(A0) == 0)
  {
    hide Matches, CtxOk, LoadToGreg, Eval, Exec;
    match r
    case None =>
      ExecOne(sym, AddiD(A0, ZERO, 0), s);
      SetTemp(c, ir, s, A0, 0);
    case Some(op) =>
      if retTy == Some(I32) || retTy == Some(Ptr) {
        LoadOperand(c, sym, ir, s, op, TypeOf(c.decls, op), A0);
      } else {
        ExecNothing(sym, s);
      }
  }

  lemma ExecNothing(sym: nat -> int, s: State)
    ensures Exec(sym, [], s) == Stop(s, Fall)
  {
  }

  lemma ReturnSound(c: Ctx, sym: nat -> int, retTy: Opt<Ty>, t: Inst, ir: IrState, s: State)
    requires CtxOk(c) && Matches(c, ir, s) && t.Ret? && Lowerable(c.decls, c.lay.off, t) && InstOk(c.decls, t)
    requires Choose(sym, ir.env, t).Leave?
    ensures var stop := Exec(sym, TermCode(c.decls, c.lay.off, c.lay.size, retTy, t), s);
      stop.next == At(c.ra) && Restored(c, retTy, Choose(sym, ir.env, t).v, ir.mem, stop.s)
  {
    hide Exec, CtxOk, RetValue, Epilogue, Choose, SlotsHold, Saved, EnvOk, MemAgrees, InstOk;
    var code := RetValue(c.decls, c.lay.off, retTy, t.result);
    RetValueSound(c, sym, retTy, t.result, ir, s);
    var s1 := Exec(sym, code, s).s;
    ExecThen(sym, code, Epilogue(c.lay.size), s, s1);
    EpilogueSound(c, sym, ir, s1);
  }

  // ---------- runs ----------

  datatype Exit = Exited(s: State, address: int) | Lost | Running

  function RunMachine(sym: nat -> int, code: map<int, seq<Instr>>, b: int, s: State, fuel: nat): Exit
    decreases fuel
  {
    if fuel == 0 then Running
    else if b !in code then Lost
    else
      var stop := Exec(sym, code[b], s);
      match stop.next
      case Fall => Lost
      case To(l) => RunMachine(sym, code, l, stop.s, fuel - 1)
      case At(a) => Exited(stop.s, a)
  }

  /** The code of every block of the function. */
  ghost predicate Generated(f: Fn, c: Ctx, retTy: Opt<Ty>, code: map<int, seq<Instr>>)
    requires c.decls == f.decls && CodeOk(f, c.lay.off)
  {
    && code.Keys == f.code.Keys
    && forall b :: b in f.code ==>
         (BlockHasCode(f, c, b); code[b] == BlockCode(f, c.lay.off, c.lay.size, retTy, b))
  }

  /** The state after the body of a block. */
  ghost function AfterBody(f: Fn, c: Ctx, sym: nat -> int, b: int, ir: IrState): Opt<IrState>
    requires b in f.code && |f.code[b]| > 0
  {
    Steps(f.decls, sym, Place(c), Free(c), NonPhis(Body(f, b)), ir)
  }

  /** The state after the body and the copies. */
  ghost function AfterFront(f: Fn, c: Ctx, sym: nat -> int, b: int, ir: IrState): IrState
    requires b in f.code && |f.code[b]| > 0 && SuccessorsFed(f, Last(f, b)) && AfterBody(f, c, sym, b, ir).Some?
  {
    var to := AfterBody(f, c, sym, b, ir).value;
    to.(env := AfterCopies(f, sym, b, Last(f, b), to.env))
  }

  /** The body and the copies of a block. */
  lemma FrontSound(f: Fn, c: Ctx, sym: nat -> int, b: int, ir: IrState, s: State)
    requires c.decls == f.decls && CodeOk(f, c.lay.off) && b in f.code && CtxOk(c) && Matches(c, ir, s)
    requires BlockReady(f, c.lay.off, b) && AfterBody(f, c, sym, b, ir).Some?
    ensures KeepsStep(c, sym, FrontCode(f, c.lay.off, b), s, AfterFront(f, c, sym, b, ir))
  {
    hide Matches, CtxOk, Lowerable, InstOk, CodeOk, BodyCode, CopiesCode, AllCopies, Steps, CopiesPlaced, Exec, Place,
        Free, SuccessorsFed, Sequential;
    BlockHasCode(f, c, b);
    var body := Body(f, b);
    BodySound(c, sym, body, ir, s);
    CopiesReady(f, c, b);
    var code := BodyCode(f.decls, c.lay.off, body);
    var s1 := Exec(sym, code, s).s;
    var cs := AllCopies(f, b, Last(f, b));
    ExecThen(sym, code, CopiesCode(f.decls, c.lay.off, cs), s, s1);
    CopiesSound(c, sym, cs, AfterBody(f, c, sym, b, ir).value, s1);
  }

  /** What code generation knows of a terminator. */
  lemma TerminatorFacts(f: Fn, off: Offsets, b: int)
    requires CodeOk(f, off) && b in f.code
    ensures |f.code[b]| > 0 && IsTerminator(Last(f, b)) && Lowerable(f.decls, off, Last(f, b))
        && InstOk(f.decls, Last(f, b))
    ensures forall l :: l in Successors(Last(f, b)) ==> l in f.code
  {
    hide NamesDistinct, PhisFed, Lowerable, InstOk;
    assert BlockOk(f, off, b);
  }

  /** The code of one block: it stops at the block chosen after the copies, with
      the slots as the copies left them, or back at the caller. */
  lemma BlockSound(f: Fn, c: Ctx, sym: nat -> int, retTy: Opt<Ty>, code: map<int, seq<Instr>>, b: int, ir: IrState,
          s: State)
    requires c.decls == f.decls && CodeOk(f, c.lay.off) && Generated(f, c, retTy, code) && b in f.code
    requires CtxOk(c) && Matches(c, ir, s)
    requires |f.code[b]| > 0 && SuccessorsFed(f, Last(f, b)) && AfterBody(f, c, sym, b, ir).Some?
    ensures var at := AfterFront(f, c, sym, b, ir);
      var choice := Choose(sym, at.env, Last(f, b));
      var stop := Exec(sym, code[b], s);
      && (choice.Goto? ==> choice.l in f.code && stop.next == To(choice.l) && Matches(c, at, stop.s))
      && (choice.Leave? ==> stop.next == At(c.ra) && Restored(c, retTy, choice.v, at.mem, stop.s))
      && SameKept(s, stop.s)
  {
    hide Matches, CtxOk, Lowerable, InstOk, CodeOk, AllCopies, AfterFront, AfterBody, CopiesPlaced, Exec, TermCode,
        FrontCode,
      Choose, Restored, PhisFed, SuccessorsFed, SparesAll, SameKept;
    BlockHasCode(f, c, b);
    BlockSpares(f, c.lay.off, c.lay.size, retTy, b);
    ExecSpares(sym, code[b], s);
    TerminatorFacts(f, c.lay.off, b);
    var t := Last(f, b);
    var at := AfterFront(f, c, sym, b, ir);
    var choice := Choose(sym, at.env, t);
    ChosenIsSuccessor(sym, at.env, t);
    FrontSound(f, c, sym, b, ir, s);
    var front := FrontCode(f, c.lay.off, b);
    var s1 := Exec(sym, front, s).s;
    ExecThen(sym, front, TermCode(f.decls, c.lay.off, c.lay.size, retTy, t), s, s1);
    if choice.Goto? {
      BranchSound(c, sym, retTy, t, at, s1);
    } else if choice.Leave? {
      ReturnSound(c, sym, retTy, t, at, s1);
    }
  }

  lemma RunMachineStep(sym: nat -> int, code: map<int, seq<Instr>>, b: int, s: State, fuel: nat)
    requires fuel > 0 && b in code
    ensures var stop := Exec(sym, code[b], s);
      && (stop.next.At? ==> RunMachine(sym, code, b, s, fuel) == Exited(stop.s, stop.next.address))
      && (stop.next.To? ==>
            RunMachine(sym, code, b, s, fuel) == RunMachine(sym, code, stop.next.block, stop.s, fuel - 1))
  {
    hide Exec;
  }

  lemma SameBlocks(f: Fn, c: Ctx, retTy: Opt<Ty>, code: map<int, seq<Instr>>)
    requires c.decls == f.decls && CodeOk(f, c.lay.off) && Generated(f, c, retTy, code)
    ensures code.Keys == f.code.Keys
  {
    hide CodeOk, BlockCode;
  }

  lemma AfterFrontIs(f: Fn, c: Ctx, sym: nat -> int, b: int, ir: IrState)
    requires b in f.code && |f.code[b]| > 0 && SuccessorsFed(f, Last(f, b))
    ensures AfterBody(f, c, sym, b, ir) == Steps(f.decls, sym, Place(c), Free(c), NonPhis(Body(f, b)), ir)
    ensures AfterBody(f, c, sym, b, ir).Some? ==>
      var to := AfterBody(f, c, sym, b, ir).value;
      AfterFront(f, c, sym, b, ir) == to.(env := AfterCopies(f, sym, b, Last(f, b), to.env))
  {
    hide Steps, NonPhis, AfterCopies, SuccessorsFed;
  }

  lemma SameMemory(st: IrState, env: Env)
    ensures st.(env := env).mem == st.mem && st.(env := env).env == env
  {
  }

  /** From any block on, the machine returns what the run with copies returns. */
  lemma {:induction false} BlocksSound(f: Fn, c: Ctx, sym: nat -> int, retTy: Opt<Ty>, code: map<int, seq<Instr>>,
          b: int, ir: IrState, s: State, fuel: nat)
    requires c.decls == f.decls && CodeOk(f, c.lay.off) && Generated(f, c, retTy, code)
    requires CtxOk(c) && Matches(c, ir, s)
    requires RunSlots(f, sym, Place(c), Free(c), b, ir, fuel).Returned?
    ensures var r := RunSlots(f, sym, Place(c), Free(c), b, ir, fuel);
      var exit := RunMachine(sym, code, b, s, fuel);
      exit.Exited? && exit.address == c.ra && Restored(c, retTy, r.v, r.mem, exit.s) && SameKept(s, exit.s)
    decreases fuel
  {
    hide *;
    RunSlotsBack(f, sym, Place(c), Free(c), b, ir, fuel);
    RunSlotsStep(f, sym, Place(c), Free(c), b, ir, fuel);
    AfterFrontIs(f, c, sym, b, ir);
    SameBlocks(f, c, retTy, code);
    BlockSound(f, c, sym, retTy, code, b, ir, s);
    RunMachineStep(sym, code, b, s, fuel);
    var to := AfterBody(f, c, sym, b, ir).value;
    var at := AfterFront(f, c, sym, b, ir);
    SameMemory(to, AfterCopies(f, sym, b, Last(f, b), to.env));
    var stop := Exec(sym, code[b], s);
    match Choose(sym, at.env, Last(f, b))
    case Goto(l) =>
      BlocksSound(f, c, sym, retTy, code, l, at, stop.s, fuel - 1);
      SameKeptThen(s, stop.s, RunMachine(sym, code, b, s, fuel).s);
    case _ =>
  }

  // ---------- calls ----------

  /** What runs on a call: the prologue, the argument stores, then the first block. */
  function EntryCode(f: Fn, l: Layout): seq<Instr>
    requires |f.args| <= 8 && forall i :: 0 <= i < |f.args| ==> HasSlot(f.decls, l.off, f.args[i].id)
  {
    Prologue(l.size) + StoreArgs(f.decls, l.off, f.args, |f.args|)
  }

  lemma ArgsHaveSlots(f: Fn, l: Layout)
    requires FnOk(f) && RoomFor(f, l)
    ensures forall i ::
        0 <= i < |f.args| ==> HasSlot(f.decls, l.off, f.args[i].id) && f.decls[f.args[i].id].ty == f.args[i].ty
  {
    forall i | 0 <= i < |f.args| ensures HasSlot(f.decls, l.off, f.args[i].id) {
      assert Named(f, f.args[i].id);
    }
  }

  /** The machine is back at the caller: the result in $a0, the caller's stack and
      frame pointers, and the memory outside the frame as given. */
  ghost predicate Back(c: Ctx, retTy: Opt<Ty>, v: Opt<int>, mem: Bytes, exit: Exit) {
    && exit.Exited? && exit.address == c.ra
    && exit.s.Get(SP) == c.fp && exit.s.Get(FP) == c.oldFp && exit.s.Get(RA) == c.ra
    && (v.Some? && (retTy == Some(I32) || retTy == Some(Ptr)) ==> exit.s.Get(A0) == v.value)
    && (v.None? ==> exit.s.Get(A0) == 0)
    && (forall a :: a < c.fp - c.lay.size || c.fp <= a ==> ByteAt(exit.s.mem, a) == ByteAt(mem, a))
  }

  /** By register number: $tp, $sp, $r21, $fp and $s0 to $s8 are as at the call, control
      is where register 1 said, and the result is in register 4. */
  ghost predicate CallerKept(s: State, retTy: Opt<Ty>, v: Opt<int>, exit: Exit) {
    && exit.Exited? && exit.address == s.Get(1)
    && (forall r: Reg :: r == 2 || r == 3 || 21 <= r <= 31 ==> exit.s.Get(r) == s.Get(r))
    && (v.Some? && (retTy == Some(I32) || retTy == Some(Ptr)) ==> exit.s.Get(4) == v.value)
  }

  lemma KeptByNumber(c: Ctx, retTy: Opt<Ty>, v: Opt<int>, mem: Bytes, s: State, exit: Exit)
    requires Called(c, s) && Back(c, retTy, v, mem, exit) && SameKept(s, exit.s)
    ensures CallerKept(s, retTy, v, exit)
  {
    hide ByteAt;
    forall r: Reg | r == 2 || r == 3 || 21 <= r <= 31 ensures exit.s.Get(r) == s.Get(r) {
      if r != 3 && r != 22 { assert KeptForCaller(r); }
    }
  }

  /** A function called with arguments in registers. */
  ghost predicate CallReady(f: Fn, c: Ctx, retTy: Opt<Ty>, code: map<int, seq<Instr>>, vals: seq<int>, s: State) {
    && c.decls == f.decls && CodeOk(f, c.lay.off) && RoomFor(f, c.lay) && Generated(f, c, retTy, code)
    && |f.blocks| > 0 && c.lay.size <= c.fp < TWO_63 && Called(c, s) && ArgsGiven(f.args, vals, s)
  }

  /** The values and the memory the function starts with. */
  function Start(f: Fn, vals: seq<int>, s: State): IrState
    requires |f.args| == |vals|
  {
    IrState(ArgEnv(f.args, vals, |f.args|), s.mem)
  }

  /** The run of the instructions from a call. */
  ghost function IrOutcome(f: Fn, c: Ctx, sym: nat -> int, vals: seq<int>, s: State, fuel: nat): Outcome {
    if |f.blocks| == 0 || |f.args| != |vals| then Stuck
    else RunIr(f, sym, Place(c), Free(c), f.blocks[0], Start(f, vals, s), fuel)
  }

  /** The run with copies from a call. */
  ghost function SlotsOutcome(f: Fn, c: Ctx, sym: nat -> int, vals: seq<int>, s: State, fuel: nat): Outcome {
    if |f.blocks| == 0 || |f.args| != |vals| then Stuck
    else RunSlots(f, sym, Place(c), Free(c), f.blocks[0], Start(f, vals, s), fuel)
  }

  /** The entry code and then the blocks bring the machine back to the caller, with
      the registers it relies on. */
  ghost predicate MachineReturns(f: Fn, c: Ctx, sym: nat -> int, retTy: Opt<Ty>, code: map<int, seq<Instr>>, s: State,
          fuel: nat, v: Opt<int>, mem: Bytes)
  {
    && |f.blocks| > 0 && |f.args| <= 8
    && (forall i :: 0 <= i < |f.args| ==> HasSlot(f.decls, c.lay.off, f.args[i].id))
    && var entry := Exec(sym, EntryCode(f, c.lay), s);
    && entry.next == Fall
    && Back(c, retTy, v, mem, RunMachine(sym, code, f.blocks[0], entry.s, fuel))
    && CallerKept(s, retTy, v, RunMachine(sym, code, f.blocks[0], entry.s, fuel))
  }

  /** The prologue and the argument stores make the frame the function starts with. */
  lemma EntrySound(f: Fn, c: Ctx, sym: nat -> int, retTy: Opt<Ty>, code: map<int, seq<Instr>>, vals: seq<int>, s: State)
    requires CallReady(f, c, retTy, code, vals, s)
    ensures forall i :: 0 <= i < |f.args| ==> HasSlot(f.decls, c.lay.off, f.args[i].id)
    ensures CtxOk(c)
    ensures var entry := Exec(sym, EntryCode(f, c.lay), s);
      entry.next == Fall && Matches(c, Start(f, vals, s), entry.s) && SameKept(s, entry.s)
  {
    hide Matches, CodeOk, Exec, Placed, Generated, Prologue, StoreArgs, ArgEnv, Spares, SameKept;
    CodeFnOk(f, c.lay.off);
    ArgsHaveSlots(f, c.lay);
    PrologueSound(c, sym, s);
    var s1 := Exec(sym, Prologue(c.lay.size), s).s;
    StoreArgsSound(c, sym, f.args, vals, |f.args|, s.mem, s1);
    ExecThen(sym, Prologue(c.lay.size), StoreArgs(f.decls, c.lay.off, f.args, |f.args|), s, s1);
    FrameSpares(c.lay.size);
    ArgsSpare(f.decls, c.lay.off, f.args, |f.args|);
    ExecSpares(sym, EntryCode(f, c.lay), s);
  }

  /** What the caller finds, in its own terms. */
  lemma RestoredIsBack(c: Ctx, retTy: Opt<Ty>, v: Opt<int>, mem: Bytes, exit: Exit)
    requires CtxOk(c) && exit.Exited? && exit.address == c.ra && Restored(c, retTy, v, mem, exit.s)
    ensures Back(c, retTy, v, mem, exit)
  {
    hide Reserved, ByteAt;
    forall a | a < c.fp - c.lay.size || c.fp <= a ensures ByteAt(exit.s.mem, a) == ByteAt(mem, a) {
      OutsideNotReserved(c, a);
    }
  }

  /** Code generation, whatever the phis: the machine returns what the run with
      copies returns. */
  lemma MachineRunsSlots(f: Fn, c: Ctx, sym: nat -> int, retTy: Opt<Ty>, code: map<int, seq<Instr>>, vals: seq<int>,
          s: State, fuel: nat)
    requires CallReady(f, c, retTy, code, vals, s) && SlotsOutcome(f, c, sym, vals, s, fuel).Returned?
    ensures var r := SlotsOutcome(f, c, sym, vals, s, fuel); MachineReturns(f, c, sym, retTy, code, s, fuel, r.v, r.mem)
  {
    hide Matches, CodeOk, Generated, Called, RoomFor, CallReady, CtxOk, Restored, Back, RunSlots, RunMachine, Exec,
        Place, Free, EntryCode, Start, SameKept, CallerKept;
    CallGives(f, c, retTy, code, vals, s);
    EntrySound(f, c, sym, retTy, code, vals, s);
    var entry := Exec(sym, EntryCode(f, c.lay), s);
    var ir := Start(f, vals, s);
    BlocksSound(f, c, sym, retTy, code, f.blocks[0], ir, entry.s, fuel);
    var r := RunSlots(f, sym, Place(c), Free(c), f.blocks[0], ir, fuel);
    var exit := RunMachine(sym, code, f.blocks[0], entry.s, fuel);
    RestoredIsBack(c, retTy, r.v, r.mem, exit);
    SameKeptThen(s, entry.s, exit.s);
    KeptByNumber(c, retTy, r.v, r.mem, s, exit);
  }

  lemma CallGives(f: Fn, c: Ctx, retTy: Opt<Ty>, code: map<int, seq<Instr>>, vals: seq<int>, s: State)
    requires CallReady(f, c, retTy, code, vals, s)
    ensures c.decls == f.decls && CodeOk(f, c.lay.off) && Generated(f, c, retTy, code) && |f.blocks| > 0
        && |f.args| == |vals| <= 8 && Called(c, s)
  {
    hide CodeOk, Generated, Called, RoomFor;
  }

  /** Code generation is correct for functions whose slots are kept: when the typed
      instructions return, the machine returns to the caller with the same result
      and the same memory outside the frame. */
  lemma FunctionSound(f: Fn, c: Ctx, sym: nat -> int, retTy: Opt<Ty>, code: map<int, seq<Instr>>, vals: seq<int>,
          s: State, fuel: nat)
    requires CallReady(f, c, retTy, code, vals, s) && SlotsKept(f) && IrOutcome(f, c, sym, vals, s, fuel).Returned?
    ensures var r := IrOutcome(f, c, sym, vals, s, fuel); MachineReturns(f, c, sym, retTy, code, s, fuel, r.v, r.mem)
  {
    hide CallReady, MachineReturns, SlotsKept, RunIr, RunSlots, Place, Free, Start, Live, Agree, CodeOk, Generated;
    CallGives(f, c, retTy, code, vals, s);
    var ir := Start(f, vals, s);
    SelfAgree(Live(f, f.blocks[0]), ir.env);
    SlotsReturn(f, sym, Place(c), Free(c), f.blocks[0], ir, ir, fuel);
    MachineRunsSlots(f, c, sym, retTy, code, vals, s, fuel);
  }

  lemma OutsideNotReserved(c: Ctx, a: int)
    requires CtxOk(c) && (a < c.fp - c.lay.size || c.fp <= a)
    ensures !Reserved(c, a)
  {
  }

  lemma CodeFnOk(f: Fn, off: Offsets)
    requires CodeOk(f, off)
    ensures FnOk(f)
  {
  }
}
