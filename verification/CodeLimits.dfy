/** A phi and a frame on which code generation falls short; LostCopy has a loop. */
module CodeLimits {
  import opened LoongArch
  import opened TypedIr
  import opened FrameLayout
  import opened Lowering
  import opened LoweringSound
  import opened FrameCode
  import opened Copies
  import opened TypedRun
  import opened PhiEdges
  import opened FunctionSound
  import opened Encoding

  // ---------- three pairs ----------

  /** phi [10, block 0], [11, block 1], [12, block 2]. */
  function ThreePairs(): Inst {
    Phi(0, I32, [Pair(ConstInt(I32, 10), 0), Pair(ConstInt(I32, 11), 1), Pair(ConstInt(I32, 12), 2)])
  }

  /** Block 2 copies 11 for its 12. */
  lemma ThirdPairWrong()
    ensures Incoming(ThreePairs().pairs, 2) == Some(ConstInt(I32, 12))
    ensures PhiCopy(ThreePairs(), 2) == [Copy(0, ConstInt(I32, 11))] && !CopyIsIncoming(ThreePairs(), 2)
  {
    IncomingAt(ThreePairs().pairs, 2);
  }

  /** Any block but the first, listed or not, copies the second value, or nothing if
      there is only one pair. */
  lemma UnlistedCopies(b: int)
    requires b != 0
    ensures PhiCopy(ThreePairs(), b) == [Copy(0, ConstInt(I32, 11))]
    ensures PhiCopy(Phi(0, I32, [Pair(ConstInt(I32, 10), 0)]), b) == []
  {
  }

  // ---------- the order of the copies ----------

  /** On the edge from block 1: i = phi [j], j = phi [i]. */
  function Exchange(): seq<Inst> {
    [Phi(0, I32, [Pair(Name(1), 1)]), Phi(1, I32, [Pair(Name(0), 1)])]
  }

  /** The first phi is copied first: both end up with the second value. */
  lemma ExchangeLost(sym: nat -> int, a: int, b: int)
    ensures PhisFed(Exchange())
    ensures var cs := PhiCopies(Exchange(), 1, 2);
      |cs| == 2 && Sequential(sym, map[0 := a, 1 := b], cs, 2) == map[0 := b, 1 := b]
      && Parallel(sym, map[0 := a, 1 := b], cs, 2) == map[0 := b, 1 := a]
  {
    var list := Exchange();
    var cs := PhiCopies(list, 1, 2);
    assert PhiCopies(list, 1, 0) == [];
    assert PhiCopies(list, 1, 1) == [Copy(0, Name(1))];
    assert cs == [Copy(0, Name(1)), Copy(1, Name(0))];
    var env: Env := map[0 := a, 1 := b];
    assert Sequential(sym, env, cs, 0) == env && Parallel(sym, env, cs, 0) == env;
    assert Sequential(sym, env, cs, 1) == map[0 := b, 1 := b];
    assert Parallel(sym, env, cs, 1) == map[0 := b, 1 := b];
  }

  /** 0: br c, 1, 2.  1: i = phi [5, 0].  2: j = phi [i, 0]. */
  function Fork(c: Operand): Fn {
    Fn([], [0, 1, 2],
       map[0 := [CondBr(c, 1, 2)], 1 := [Phi(0, I32, [Pair(ConstInt(I32, 5), 0)])],
           2 := [Phi(1, I32, [Pair(Name(0), 0)])]],
       map[0 := Decl(I32, 0), 1 := Decl(I32, 0)])
  }

  /** The phis of the first target are copied before those of the second, wherever
      the branch goes. */
  lemma FirstTargetFirst(sym: nat -> int, c: Operand, a: int, b: int)
    ensures var t := CondBr(c, 1, 2);
      && SuccessorsFed(Fork(c), t)
      && AfterCopies(Fork(c), sym, 0, t, map[0 := a, 1 := b]) == map[0 := 5, 1 := 5]
  {
    var f, t := Fork(c), CondBr(c, 1, 2);
    assert PhiCopies(f.code[1], 0, 0) == [] && PhiCopies(f.code[2], 0, 0) == [];
    assert PhiCopies(f.code[1], 0, 1) == [Copy(0, ConstInt(I32, 5))];
    assert PhiCopies(f.code[2], 0, 1) == [Copy(1, Name(0))];
    var cs := AllCopies(f, 0, t);
    assert cs == [Copy(0, ConstInt(I32, 5)), Copy(1, Name(0))];
    var env: Env := map[0 := a, 1 := b];
    assert Sequential(sym, env, cs, 0) == env;
    assert Sequential(sym, env, cs, 1) == map[0 := 5, 1 := b];
    assert Sequential(sym, env, cs, 2) == map[0 := 5, 1 := 5];
  }

  // ---------- a frame of 2048 bytes ----------

  /** 0: a = alloca of 2024 bytes; br 1.  1: br 1. */
  function Spin(): Fn {
    Fn([], [0, 1], map[0 := [Alloca(0, 2024), Br(1)], 1 := [Br(1)]], map[0 := Decl(Ptr, 2024)])
  }

  function SpinFrame(): Layout {
    Layout(map[0 := -24], 2048)
  }

  lemma SpinBlock(b: int)
    requires b == 0 || b == 1
    ensures BlockOk(Spin(), SpinFrame().off, b)
    ensures forall i :: 0 <= i < |Spin().code[b]| ==> InstOk(Spin().decls, Spin().code[b][i])
  {
  }

  lemma SpinPlaced()
    ensures Placed(Spin().decls, SpinFrame().off, 2048)
  {
  }

  lemma SpinDistinct()
    ensures NamesDistinct(Spin())
  {
    var f := Spin();
    assert forall b, i :: b in f.code && 0 <= i < |f.code[b]| && !f.code[b][i].IsVoid() ==> b == 0 && i == 0;
  }

  lemma SpinIs()
    ensures var f := Spin(); f.args == [] && f.blocks == [0, 1] && f.code.Keys == {0, 1}
    ensures SpinFrame().size == 2048 && SpinFrame().off.Keys == {0}
  {
  }

  lemma SpinRoom()
    ensures RoomFor(Spin(), SpinFrame())
  {
    hide Spin, SpinFrame, Named, Placed;
    SpinIs();
    SpinPlaced();
    forall v: nat ensures v in SpinFrame().off <==> Named(Spin(), v) { SpinNames(v); }
  }

  lemma SpinHighest()
    ensures Highest(Spin().decls, SpinFrame().off, BeforeInst(Spin(), 0, 0), 0)
    ensures InOrder(Spin(), SpinFrame().off)
  {
    var f, off, before := Spin(), SpinFrame().off, BeforeInst(Spin(), 0, 0);
    forall x | Aligned(x, Ptr) && Below(f.decls, off, before, x + 8) ensures x <= -24 {}
    assert Highest(f.decls, off, before, 0);
  }

  lemma SpinLeast(s: int)
    requires s % 16 == 0 && s >= 16 && Placed(Spin().decls, SpinFrame().off, s)
    ensures SpinFrame().size <= s
  {
    assert Low(Spin().decls, SpinFrame().off, 0) == -2048;
  }

  lemma SpinCode()
    ensures CodeOk(Spin(), SpinFrame().off)
  {
    hide Spin, SpinFrame, BlockOk, InstOk, NamesDistinct;
    SpinIs();
    SpinBlock(0);
    SpinBlock(1);
    SpinDistinct();
  }

  /** Code generation accepts the function, and this is its frame. */
  lemma SpinOk()
    ensures CodeOk(Spin(), SpinFrame().off) && RoomFor(Spin(), SpinFrame()) && FrameFor(Spin(), SpinFrame())
  {
    hide *;
    SpinCode();
    SpinRoom();
    SpinHighest();
    forall s: int | s % 16 == 0 && s >= 16 && Placed(Spin().decls, SpinFrame().off, s) ensures SpinFrame().size <= s {
      SpinLeast(s);
    }
    IsFrame(Spin(), SpinFrame());
  }

  lemma IsFrame(f: Fn, l: Layout)
    requires RoomFor(f, l) && InOrder(f, l.off)
    requires forall s: int :: s % 16 == 0 && s >= 16 && Placed(f.decls, l.off, s) ==> l.size <= s
    ensures FrameFor(f, l)
  {
  }

  lemma SpinNames(v: nat)
    ensures Named(Spin(), v) <==> v == 0
  {
    var f := Spin();
    assert 0 in f.code && !f.code[0][0].IsVoid() && f.code[0][0].id == 0;
  }

  /** It never returns, its alloca is small, and its entry and blocks can be encoded;
      the epilogue behind the last block cannot. */
  lemma SpinFails(c: Ctx, retTy: Opt<Ty>, code: map<int, seq<Instr>>)
    requires c.decls == Spin().decls && c.lay == SpinFrame() && CodeOk(Spin(), c.lay.off)
        && Generated(Spin(), c, retTy, code)
    ensures SmallAllocas(Spin()) && Encodable(EntryCode(Spin(), c.lay))
        && (forall b :: b in code ==> Encodable(code[b]))
    ensures !Encodable(Epilogue(c.lay.size))
  {
    hide CodeOk, Generated, Encodable, Prologue, Epilogue, BlockCode, BlockReady, FrameFor, RoomFor;
    var f := Spin();
    SpinOk();
    FrameOffsetsOk(f, c.lay);
    FrameEncodable(2048);
    SpinEntry();
    SameBlocks(f, c, retTy, code);
    forall b | b in f.code ensures b in code && Encodable(code[b]) {
      GeneratedAt(f, c, retTy, code, b);
      BlockEncodable(f, c.lay, retTy, b);
    }
  }

  lemma SpinEntry()
    ensures EntryCode(Spin(), SpinFrame()) == Prologue(2048)
  {
    assert StoreArgs(Spin().decls, SpinFrame().off, [], 0) == [];
  }
}
