/** A loop whose phi is used after the loop: the copy for the next turn is made
    before the branch leaves, and the machine returns one turn too many. */
module LostCopy {
  import opened Bits
  import opened LoongArch
  import opened TypedIr
  import opened FrameLayout
  import opened Lowering
  import opened LoweringSound
  import opened Copies
  import opened TypedRun
  import opened InstSound
  import opened FunctionSound

  function Enter(): seq<Inst> { [Br(1)] }

  function Loop(): seq<Inst> {
    [Phi(0, I32, [Pair(ConstInt(I32, 0), 0), Pair(Name(1), 1)]),
     Binary(1, Add, Name(0), ConstInt(I32, 1)),
     Icmp(2, Lt, Name(1), ConstInt(I32, 2)),
     CondBr(Name(2), 1, 2)]
  }

  function Exit(): seq<Inst> { [Ret(Some(Name(0)))] }

  /** 0: br 1;  1: i = phi [0, 0], [j, 1]; j = i + 1; c = j < 2; br c, 1, 2;  2: ret i. */
  function Counter(): Fn {
    Fn([], [0, 1, 2], map[0 := Enter(), 1 := Loop(), 2 := Exit()],
       map[0 := Decl(I32, 0), 1 := Decl(I32, 0), 2 := Decl(I1, 0)])
  }

  lemma Blocks()
    ensures var f := Counter();
      f.args == [] && f.blocks == [0, 1, 2] && f.code.Keys == {0, 1, 2}
      && f.code[0] == Enter() && f.code[1] == Loop() && f.code[2] == Exit()
    ensures |Enter()| == 1 && |Loop()| == 4 && |Exit()| == 1
  {
    hide Enter, Loop, Exit;
    assert |Enter()| == 1 && |Loop()| == 4 && |Exit()| == 1 by { Lengths(); }
  }

  lemma Lengths()
    ensures |Enter()| == 1 && |Loop()| == 4 && |Exit()| == 1
  {
  }

  lemma Bodies()
    ensures 0 in Counter().code && 1 in Counter().code && 2 in Counter().code
    ensures Body(Counter(), 0) == [] && Body(Counter(), 2) == []
        && Body(Counter(), 1) == [Loop()[0], Loop()[1], Loop()[2]]
    ensures NonPhis(Body(Counter(), 0)) == [] && NonPhis(Body(Counter(), 2)) == []
    ensures NonPhis(Body(Counter(), 1)) == [Loop()[1], Loop()[2]]
  {
    var body := Body(Counter(), 1);
    assert body == [Loop()[0], Loop()[1], Loop()[2]];
    assert body[1..] == [Loop()[1], Loop()[2]] && body[1..][1..] == [Loop()[2]] && body[1..][1..][1..] == [];
    assert NonPhis([Loop()[2]]) == [Loop()[2]];
  }

  // ---------- code generation accepts it ----------

  lemma ListOk(list: seq<Inst>, off: Offsets)
    requires off.Keys == {0, 1, 2} && (list == Enter() || list == Loop() || list == Exit())
    ensures forall i :: 0 <= i < |list| ==> InstOk(Counter().decls, list[i]) && Lowerable(Counter().decls, off, list[i])
    ensures forall i :: 0 <= i < |list| && list[i].Phi? ==> PhiPlaced(Counter().decls, off, list[i])
  {
    var decls := Counter().decls;
    forall i | 0 <= i < |list| ensures InstOk(decls, list[i]) && Lowerable(decls, off, list[i]) {
      assert HasTy(I32, 0) && HasTy(I32, 1) && HasTy(I32, 2);
    }
  }

  lemma ListShape(list: seq<Inst>, t: Inst)
    requires |list| > 0 && t == list[|list| - 1] && (list == Enter() || list == Loop() || list == Exit())
    ensures IsTerminator(t) && PhisFed(list)
    ensures forall l :: l in Successors(t) ==> l == 1 || l == 2
    ensures forall i :: 0 <= i < |list| - 1 ==> !IsTerminator(list[i])
  {
  }

  lemma Names()
    ensures NamesDistinct(Counter())
  {
    var f := Counter();
    Blocks();
    assert forall b, i ::
        b in f.code && 0 <= i < |f.code[b]| && !f.code[b][i].IsVoid() ==> b == 1 && f.code[b][i].id == i;
  }

  lemma BlockAt(b: int)
    requires b in Counter().code
    ensures var list := Counter().code[b]; list == Enter() || list == Loop() || list == Exit()
  {
    hide Enter, Loop, Exit;
  }

  lemma ShapeOk(off: Offsets, b: int)
    requires off.Keys == {0, 1, 2} && b in Counter().code
    ensures BlockOk(Counter(), off, b)
    ensures forall i :: 0 <= i < |Counter().code[b]| ==> InstOk(Counter().decls, Counter().code[b][i])
  {
    hide Lowerable, InstOk, PhiPlaced, PhisFed, IsTerminator, Successors, Enter, Loop, Exit, Counter;
    Blocks();
    BlockAt(b);
    ListOk(Counter().code[b], off);
    ListShape(Counter().code[b], Last(Counter(), b));
  }

  /** Code generation accepts the function. */
  lemma CounterOk(off: Offsets)
    requires off.Keys == {0, 1, 2}
    ensures CodeOk(Counter(), off)
  {
    hide InstOk, BlockOk, NamesDistinct, Counter, Enter, Loop, Exit;
    var f := Counter();
    Blocks();
    Names();
    forall b | b in f.code ensures BlockOk(f, off, b) && forall i ::
        0 <= i < |f.code[b]| ==> InstOk(f.decls, f.code[b][i]) {
      ShapeOk(off, b);
    }
  }

  // ---------- one block ----------

  lemma Choices(sym: nat -> int, env: Env, b: int)
    requires 0 <= b <= 2 && (b == 0 || env.Keys == {0, 1, 2})
    ensures b in Counter().code && |Counter().code[b]| > 0
    ensures Choose(sym, env, Last(Counter(), b))
         == if b == 0 then Goto(1) else if b == 1 then Goto(if env[2] != 0 then 1 else 2) else Leave(Some(env[0]))
  {
    Blocks();
  }

  /** The values after one turn of the loop from i. */
  function Values(i: int, j: int, c: int): Env {
    map[0 := i, 1 := j, 2 := c]
  }

  function Flag(b: bool): int {
    if b then 1 else 0
  }

  lemma TurnSteps(sym: nat -> int, place: nat -> int, free: int -> bool, st: IrState, i: int)
    requires 0 in st.env && st.env[0] == i && 0 <= i < 100
    ensures var st1 := st.(env := st.env[1 := i + 1]);
      && Step(Counter().decls, sym, place, free, Loop()[1], st) == Some(st1)
      && Step(Counter().decls, sym, place, free, Loop()[2], st1) == Some(st1.(env := st1.env[2 := Flag(i + 1 < 2)]))
  {
    assert Signed32(i + 1) == i + 1;
  }

  lemma TwoSteps(decls: map<nat, Decl>, sym: nat -> int, place: nat -> int, free: int -> bool, a: Inst, b: Inst,
          st: IrState)
    requires Step(decls, sym, place, free, a, st).Some?
    ensures Steps(decls, sym, place, free, [a, b], st)
        == Step(decls, sym, place, free, b, Step(decls, sym, place, free, a, st).value)
  {
    hide Step;
    var st1 := Step(decls, sym, place, free, a, st).value;
    assert [a, b][1..] == [b] && [b][1..] == [];
    assert Steps(decls, sym, place, free, [b], st1) == Step(decls, sym, place, free, b, st1);
  }

  /** One turn of the loop body. */
  lemma Turn(sym: nat -> int, place: nat -> int, free: int -> bool, env: Env, mem: Bytes, i: int)
    requires env.Keys <= {0, 1, 2} && 0 in env && env[0] == i && 0 <= i < 100
    ensures 1 in Counter().code && |Counter().code[1]| > 0
    ensures Steps(Counter().decls, sym, place, free, NonPhis(Body(Counter(), 1)), IrState(env, mem))
         == Some(IrState(Values(i, i + 1, Flag(i + 1 < 2)), mem))
  {
    hide Step, Steps, NonPhis, Body, Counter, Loop;
    Blocks();
    Bodies();
    var st := IrState(env, mem);
    TurnSteps(sym, place, free, st, i);
    TwoSteps(Counter().decls, sym, place, free, Loop()[1], Loop()[2], st);
    assert env[1 := i + 1][2 := Flag(i + 1 < 2)] == Values(i, i + 1, Flag(i + 1 < 2));
  }

  lemma NoBody(sym: nat -> int, place: nat -> int, free: int -> bool, b: int, st: IrState)
    requires b == 0 || b == 2
    ensures b in Counter().code && |Counter().code[b]| > 0
    ensures Steps(Counter().decls, sym, place, free, NonPhis(Body(Counter(), b)), st) == Some(st)
  {
    hide NonPhis, Body;
    Bodies();
  }

  lemma Phis()
    ensures PhiNames(Loop()) == {0} && PhiNames(Exit()) == {}
    ensures FindPhi(Loop(), 0) == Some(Loop()[0]) && (forall v :: v != 0 ==> FindPhi(Loop(), v) == None)
    ensures forall v :: FindPhi(Exit(), v) == None
  {
    assert Loop()[0].Phi?;
  }

  lemma Pairs()
    ensures Loop()[0].Phi? && Incoming(Loop()[0].pairs, 0) == Some(ConstInt(I32, 0))
        && Incoming(Loop()[0].pairs, 1) == Some(Name(1))
  {
    var pairs := Loop()[0].pairs;
    assert pairs[1..][0] == pairs[1];
  }

  lemma Edges(sym: nat -> int, env: Env)
    ensures 1 in Counter().code && 2 in Counter().code
    ensures EdgeEnv(Counter(), sym, env, 0, 1) == env[0 := 0]
    ensures 1 in env ==> EdgeEnv(Counter(), sym, env, 1, 1) == env[0 := env[1]]
    ensures EdgeEnv(Counter(), sym, env, 1, 2) == env
  {
    hide Incoming, FindPhi, PhiNames, Loop, Exit;
    Blocks();
    Phis();
    Pairs();
    var f := Counter();
    assert Wanted(f, 0, 1, 0) == Some(ConstInt(I32, 0)) && Wanted(f, 1, 1, 0) == Some(Name(1));
  }

  lemma LoopCopies(b: int)
    requires b == 0 || b == 1
    ensures PhisFed(Loop()) && PhiCopies(Loop(), b, 4)
        == [if b == 0 then Copy(0, ConstInt(I32, 0)) else Copy(0, Name(1))]
  {
    var cp := if b == 0 then Copy(0, ConstInt(I32, 0)) else Copy(0, Name(1));
    assert PhiCopies(Loop(), b, 1) == [cp];
    assert PhiCopies(Loop(), b, 2) == [cp];
    assert PhiCopies(Loop(), b, 3) == [cp];
  }

  lemma ExitCopies(b: int)
    ensures PhisFed(Exit()) && PhiCopies(Exit(), b, 1) == []
  {
  }

  lemma CopyLists()
    ensures var f := Counter();
      && 0 in f.code && 1 in f.code && 2 in f.code && |f.code[0]| > 0 && |f.code[1]| > 0 && |f.code[2]| > 0
      && SuccessorsFed(f, Last(f, 0)) && SuccessorsFed(f, Last(f, 1)) && SuccessorsFed(f, Last(f, 2))
      && AllCopies(f, 0, Last(f, 0)) == [Copy(0, ConstInt(I32, 0))]
      && AllCopies(f, 1, Last(f, 1)) == [Copy(0, Name(1))]
      && AllCopies(f, 2, Last(f, 2)) == []
  {
    hide PhiCopies, PhisFed;
    Blocks();
    LoopCopies(0);
    LoopCopies(1);
    ExitCopies(1);
    var f := Counter();
    assert Last(f, 0) == Br(1) && Last(f, 1) == CondBr(Name(2), 1, 2);
  }

  lemma OneCopy(sym: nat -> int, env: Env, cp: Copy)
    ensures Sequential(sym, env, [cp], 1) == Assign(env, cp.dst, Eval(sym, env, cp.src))
  {
    assert Sequential(sym, env, [cp], 0) == env;
  }

  lemma Copied(sym: nat -> int, env: Env, b: int)
    requires 0 <= b <= 2 && (b == 1 ==> 1 in env)
    ensures b in Counter().code && |Counter().code[b]| > 0 && SuccessorsFed(Counter(), Last(Counter(), b))
    ensures AfterCopies(Counter(), sym, b, Last(Counter(), b), env)
         == if b == 0 then env[0 := 0] else if b == 1 then env[0 := env[1]] else env
  {
    hide Counter, AllCopies, SuccessorsFed, Last;
    CopyLists();
    OneCopy(sym, env, Copy(0, ConstInt(I32, 0)));
    OneCopy(sym, env, Copy(0, Name(1)));
  }

  // ---------- the two runs ----------

  lemma Turns()
    ensures Flag(0 + 1 < 2) == 1 && Flag(1 + 1 < 2) == 0
    ensures Values(0, 1, 1)[0 := 1] == Values(1, 1, 1) && Values(1, 2, 0)[0 := 2] == Values(2, 2, 0)
    ensures forall i, j, c ::
        Values(i, j, c).Keys == {0, 1, 2} && Values(i, j, c)[0] == i && Values(i, j, c)[1] == j
        && Values(i, j, c)[2] == c
  {
  }

  /** The instructions return 1. */
  lemma CounterReturns(sym: nat -> int, place: nat -> int, free: int -> bool, mem: Bytes, fuel: nat)
    requires fuel >= 4
    ensures RunIr(Counter(), sym, place, free, 0, IrState(map[], mem), fuel) == Returned(Some(1), mem)
  {
    hide *;
    Turns();
    var f := Counter();
    var e0: Env := map[];
    var e1, e2, e3 := e0[0 := 0], Values(1, 1, 1), Values(1, 2, 0);
    Choices(sym, e0, 0);
    NoBody(sym, place, free, 0, IrState(e0, mem));
    RunIrNext(f, sym, place, free, 0, IrState(e0, mem), fuel);
    Edges(sym, e0);
    Turn(sym, place, free, e1, mem, 0);
    Choices(sym, Values(0, 1, 1), 1);
    RunIrNext(f, sym, place, free, 1, IrState(e1, mem), fuel - 1);
    Edges(sym, Values(0, 1, 1));
    Turn(sym, place, free, e2, mem, 1);
    Choices(sym, e3, 1);
    RunIrNext(f, sym, place, free, 1, IrState(e2, mem), fuel - 2);
    Edges(sym, e3);
    Choices(sym, e3, 2);
    NoBody(sym, place, free, 2, IrState(e3, mem));
    RunIrNext(f, sym, place, free, 2, IrState(e3, mem), fuel - 3);
  }

  /** With copies they return 2. */
  lemma CounterCopied(sym: nat -> int, place: nat -> int, free: int -> bool, mem: Bytes, fuel: nat)
    requires fuel >= 4
    ensures RunSlots(Counter(), sym, place, free, 0, IrState(map[], mem), fuel) == Returned(Some(2), mem)
  {
    hide *;
    Turns();
    var f := Counter();
    var e0: Env := map[];
    var e1, e2, e3 := e0[0 := 0], Values(1, 1, 1), Values(2, 2, 0);
    NoBody(sym, place, free, 0, IrState(e0, mem));
    Copied(sym, e0, 0);
    Choices(sym, e1, 0);
    RunSlotsStep(f, sym, place, free, 0, IrState(e0, mem), fuel);
    Turn(sym, place, free, e1, mem, 0);
    Copied(sym, Values(0, 1, 1), 1);
    Choices(sym, e2, 1);
    RunSlotsStep(f, sym, place, free, 1, IrState(e1, mem), fuel - 1);
    Turn(sym, place, free, e2, mem, 1);
    Copied(sym, Values(1, 2, 0), 1);
    Choices(sym, e3, 1);
    RunSlotsStep(f, sym, place, free, 1, IrState(e2, mem), fuel - 2);
    NoBody(sym, place, free, 2, IrState(e3, mem));
    Copied(sym, e3, 2);
    Choices(sym, e3, 2);
    RunSlotsStep(f, sym, place, free, 2, IrState(e3, mem), fuel - 3);
  }

  lemma Starts(c: Ctx, sym: nat -> int, s: State, fuel: nat)
    ensures IrOutcome(Counter(), c, sym, [], s, fuel)
        == RunIr(Counter(), sym, Place(c), Free(c), 0, IrState(map[], s.mem), fuel)
    ensures SlotsOutcome(Counter(), c, sym, [], s, fuel)
        == RunSlots(Counter(), sym, Place(c), Free(c), 0, IrState(map[], s.mem), fuel)
  {
    hide RunIr, RunSlots, Enter, Loop, Exit, Place, Free;
  }

  /** Wherever it is called, the machine returns 2 where the instructions return 1. */
  lemma CounterMiscompiled(c: Ctx, sym: nat -> int, code: map<int, seq<Instr>>, s: State, fuel: nat)
    requires CallReady(Counter(), c, Some(I32), code, [], s) && fuel >= 4
    ensures IrOutcome(Counter(), c, sym, [], s, fuel) == Returned(Some(1), s.mem)
    ensures MachineReturns(Counter(), c, sym, Some(I32), code, s, fuel, Some(2), s.mem)
  {
    hide *;
    Starts(c, sym, s, fuel);
    CounterReturns(sym, Place(c), Free(c), s.mem, fuel);
    CounterCopied(sym, Place(c), Free(c), s.mem, fuel);
    MachineRunsSlots(Counter(), c, sym, Some(I32), code, [], s, fuel);
  }

  // ---------- there is such a call ----------

  /** The frame Allocate gives the function. */
  function Frame(): Layout {
    Layout(map[0 := -20, 1 := -24, 2 := -25], 32)
  }

  lemma NamesAre(v: nat)
    ensures FrameLayout.Named(Counter(), v) <==> v == 0 || v == 1 || v == 2
  {
    var f := Counter();
    Blocks();
    if v == 0 || v == 1 || v == 2 {
      assert 1 in f.code && !f.code[1][v].IsVoid() && f.code[1][v].id == v;
    }
  }

  lemma FramePlaced()
    ensures Placed(Counter().decls, Frame().off, 32)
  {
    hide Counter, Frame;
    FrameIs();
    PlaceOf(0);
    PlaceOf(1);
    PlaceOf(2);
  }

  lemma PlaceOf(v: nat)
    requires v <= 2
    ensures v in Frame().off && Frame().off[v] == if v == 0 then -20 else if v == 1 then -24 else -25
    ensures v in Counter().decls && Counter().decls[v] == if v == 2 then Decl(I1, 0) else Decl(I32, 0)
  {
    hide Enter, Loop, Exit;
  }

  lemma FrameIs()
    ensures Frame().size == 32 && Frame().off.Keys == {0, 1, 2}
  {
  }

  lemma FrameRoom()
    ensures RoomFor(Counter(), Frame())
  {
    hide FrameLayout.Named, Placed, Counter, Frame;
    FrameIs();
    FramePlaced();
    forall v: nat ensures v in Frame().off <==> FrameLayout.Named(Counter(), v) { NamesAre(v); }
  }

  lemma Defines(b: int, i: nat, w: nat)
    requires b in Counter().code && i < |Counter().code[b]|
    ensures DefinesName(Counter().code[b][i], w) <==> b == 1 && i == w && w <= 2
  {
  }

  /** Before name v come the smaller ones. */
  lemma NamesBefore(v: nat, w: nat)
    requires v <= 2
    ensures BeforeInst(Counter(), 1, v)(w) <==> w < v
  {
    var f := Counter();
    Blocks();
    hide Counter, Enter, Loop, Exit, DefinesName;
    assert f.blocks[1] == 1 && forall k :: 0 <= k < 3 ==> f.blocks[k] == k;
    forall b, i | b in f.code && 0 <= i < |f.code[b]|
      ensures DefinesName(f.code[b][i], w) <==> b == 1 && i == w && w <= 2 { Defines(b, i, w); }
    if w < v { assert DefinesName(f.code[f.blocks[1]][w], w); }
  }

  lemma SlotHighest(v: nat)
    requires v <= 2
    ensures Highest(Counter().decls, Frame().off, BeforeInst(Counter(), 1, v), v)
  {
    var decls, off, before := Counter().decls, Frame().off, BeforeInst(Counter(), 1, v);
    FrameIs();
    forall w: nat ensures before(w) <==> w < v { NamesBefore(v, w); }
    hide Counter, Frame, BeforeInst;
    PlaceOf(0);
    PlaceOf(1);
    PlaceOf(2);
    assert v > 0 ==> before(v - 1);
    forall x | Aligned(x, decls[v].ty) && Below(decls, off, before, x + decls[v].ty.Size()) ensures x <= off[v] {
      if v > 0 { assert x + decls[v].ty.Size() <= Low(decls, off, v - 1); }
    }
  }

  lemma SlotsInOrder()
    ensures InOrder(Counter(), Frame().off)
  {
    var f, off := Counter(), Frame().off;
    Blocks();
    assert forall v :: 0 <= v <= 2 ==> Loop()[v].id == v;
    hide Counter, Frame, Highest, BeforeInst;
    forall k, n | 0 <= k < |f.blocks| && f.blocks[k] in f.code && 0 <= n < |f.code[f.blocks[k]]|
        && !f.code[f.blocks[k]][n].IsVoid()
      ensures Highest(f.decls, off, BeforeInst(f, k, n), f.code[f.blocks[k]][n].id)
    {
      assert k == 1 && n <= 2;
      SlotHighest(n);
    }
  }

  lemma FrameHolds()
    ensures RoomFor(Counter(), Frame()) && FrameFor(Counter(), Frame())
  {
    FrameRoom();
    SlotsInOrder();
    hide Counter, Frame, InOrder, RoomFor;
    FrameIs();
    PlaceOf(2);
    forall s: int | s % 16 == 0 && s >= 16 && Placed(Counter().decls, Frame().off, s) ensures Frame().size <= s {
      assert Low(Counter().decls, Frame().off, 2) == -25;
    }
  }

  /** The code of every block. */
  ghost function Code(): map<int, seq<Instr>> {
    map b | b in Counter().code && BlockReady(Counter(), Frame().off, b) ::
      BlockCode(Counter(), Frame().off, Frame().size, Some(I32), b)
  }

  lemma CodeGenerated(c: Ctx)
    requires c.decls == Counter().decls && c.lay == Frame() && CodeOk(Counter(), Frame().off)
    ensures Generated(Counter(), c, Some(I32), Code())
  {
    hide CodeOk, BlockReady, BlockCode, Counter, Frame;
    var f := Counter();
    forall b | b in f.code ensures b in Code() && BlockReady(f, c.lay.off, b) {
      BlockHasCode(f, c, b);
    }
  }

  /** A call of the function: a stack at address 4096, all other registers zero. */
  lemma CounterCalled() returns (c: Ctx, code: map<int, seq<Instr>>, s: State)
    ensures CallReady(Counter(), c, Some(I32), code, [], s)
  {
    hide CodeOk, Generated, FrameFor, RoomFor, Enter, Loop, Exit;
    c := Ctx(Counter().decls, Frame(), 4096, 0, 0);
    code := Code();
    s := State(seq(32, r => if r == 3 then 4096 else 0), map[]);
    CounterOk(Frame().off);
    FrameHolds();
    CodeGenerated(c);
  }
}
