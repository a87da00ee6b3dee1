/** Entering and leaving a frame. */
module FrameCode {
  import opened Bits
  import opened LoongArch
  import opened TypedIr
  import opened FrameLayout
  import opened Lowering
  import opened LoweringSound
  import opened InstSound

  /** A call: the caller's stack pointer, return address and frame pointer. */
  ghost predicate Called(c: Ctx, s: State) {
    && s.Ok()
    && s.Get(SP) == c.fp
    && s.Get(RA) == c.ra
    && s.Get(FP) == c.oldFp
  }

  /** Memory after the two registers are saved. */
  function SaveBoth(m: Bytes, fp: int, ra: int, oldFp: int): Bytes {
    Write(Write(m, fp - 8, 8, ra), fp - 16, 8, oldFp)
  }

  /** The state the prologue makes. */
  function Entered(c: Ctx, s: State): State {
    var s1 := if IsImm12(-(c.lay.size as int)) then s else s.Set(T0, c.lay.size);
    s1.(mem := SaveBoth(s.mem, c.fp, c.ra, c.oldFp)).Set(FP, c.fp).Set(SP, c.fp - c.lay.size)
  }

  lemma SaveTwo(sym: nat -> int, s: State, fp: int, rest: seq<Instr>)
    requires s.Get(SP) == fp && 16 <= fp < TWO_63
    ensures Exec(sym, [St(8, RA, SP, -8), St(8, FP, SP, -16)] + rest, s)
         == Exec(sym, rest, s.(mem := SaveBoth(s.mem, fp, s.Get(RA), s.Get(FP))))
  {
    hide Exec, Write;
    var a, b := St(8, RA, SP, -8), St(8, FP, SP, -16);
    ExecTwo(sym, a, b, s);
    ExecThen(sym, [a, b], rest, s, s.(mem := SaveBoth(s.mem, fp, s.Get(RA), s.Get(FP))));
  }

  lemma PrologueRuns(c: Ctx, sym: nat -> int, s: State)
    requires CtxOk(c) && Called(c, s)
    ensures Exec(sym, Prologue(c.lay.size), s) == Stop(Entered(c, s), Fall)
  {
    hide Exec, SaveBoth, LoadLargeInt64, Placed;
    var size := c.lay.size;
    var save := [St(8, RA, SP, -8), St(8, FP, SP, -16)];
    if IsImm12(-(size as int)) {
      var a, b := AddiD(FP, SP, 0), AddiD(SP, SP, -(size as int));
      assert Prologue(size) == save + [a, b];
      SaveTwo(sym, s, c.fp, [a, b]);
      ExecTwo(sym, a, b, s.(mem := SaveBoth(s.mem, c.fp, c.ra, c.oldFp)));
    } else {
      var a, b := SubD(SP, SP, T0), AddD(FP, SP, T0);
      var s1 := s.Set(T0, size);
      LoadLargeInt64Exact(sym, size, T0, s);
      assert Prologue(size) == LoadLargeInt64(size, T0) + (save + [a, b]);
      ExecThen(sym, LoadLargeInt64(size, T0), save + [a, b], s, s1);
      SaveTwo(sym, s1, c.fp, [a, b]);
      var s2 := s1.(mem := SaveBoth(s.mem, c.fp, c.ra, c.oldFp));
      ExecTwo(sym, a, b, s2);
      var s3 := s2.Set(SP, c.fp - size).Set(FP, c.fp);
      assert s3.regs == Entered(c, s).regs;
    }
  }

  /** After the prologue the frame is ready and holds no value yet. */
  lemma PrologueSound(c: Ctx, sym: nat -> int, s: State)
    requires CtxOk(c) && Called(c, s)
    ensures var stop := Exec(sym, Prologue(c.lay.size), s);
      && stop.next == Fall
      && Matches(c, IrState(map[], s.mem), stop.s)
      && forall r: Reg :: A0 <= r < A0 + 8 ==> stop.s.Get(r) == s.Get(r)
  {
    hide Exec, Prologue, Placed, ByteAt, Write, Read;
    PrologueRuns(c, sym, s);
    Sizes();
    assert IsInt64(c.ra) && IsInt64(c.oldFp);
    var m1 := Write(s.mem, c.fp - 8, 8, c.ra);
    ReadBack(s.mem, c.fp - 8, 8, c.ra);
    ReadBack(m1, c.fp - 16, 8, c.oldFp);
    ReadElsewhere(m1, c.fp - 16, 8, c.oldFp, c.fp - 8, 8);
    forall a | !Reserved(c, a) ensures ByteAt(SaveBoth(s.mem, c.fp, c.ra, c.oldFp), a) == ByteAt(s.mem, a) {
      WriteElsewhere(s.mem, c.fp - 8, 8, c.ra, a);
      WriteElsewhere(m1, c.fp - 16, 8, c.oldFp, a);
    }
  }

  /** The epilogue gives the caller its stack pointer, frame pointer and return
      address back and jumps to it; nothing else but $t0 changes. */
  lemma EpilogueSound(c: Ctx, sym: nat -> int, ir: IrState, s: State)
    requires CtxOk(c) && Matches(c, ir, s)
    ensures var stop := Exec(sym, Epilogue(c.lay.size), s);
      && stop.next == At(c.ra)
      && stop.s.Get(SP) == c.fp && stop.s.Get(FP) == c.oldFp && stop.s.Get(RA) == c.ra
      && stop.s.Get(A0) == s.Get(A0)
      && stop.s.mem == s.mem
  {
    hide Exec, LoadLargeInt64, Placed, Read, EnvOk, SlotsHold, MemAgrees;
    var size := c.lay.size;
    var tail := [Ld(8, RA, SP, -8), Ld(8, FP, SP, -16), Jr(RA)];
    if IsImm12(-(size as int)) {
      assert Epilogue(size) == [AddiD(SP, SP, size)] + tail;
      ExecFirst(sym, AddiD(SP, SP, size), tail, s);
      RestoreTwo(sym, s.Set(SP, c.fp), c.fp);
    } else {
      var s1 := s.Set(T0, size);
      LoadLargeInt64Exact(sym, size, T0, s);
      assert Epilogue(size) == LoadLargeInt64(size, T0) + ([AddD(SP, SP, T0)] + tail);
      ExecThen(sym, LoadLargeInt64(size, T0), [AddD(SP, SP, T0)] + tail, s, s1);
      ExecFirst(sym, AddD(SP, SP, T0), tail, s1);
      RestoreTwo(sym, s1.Set(SP, c.fp), c.fp);
    }
  }

  lemma RestoreTwo(sym: nat -> int, s: State, fp: int)
    requires s.Get(SP) == fp && 16 <= fp < TWO_63
    ensures var ra, oldFp := Read(s.mem, fp - 8, 8), Read(s.mem, fp - 16, 8);
      Exec(sym, [Ld(8, RA, SP, -8), Ld(8, FP, SP, -16), Jr(RA)], s) == Stop(s.Set(RA, ra).Set(FP, oldFp), At(ra))
  {
    hide Exec, Read, Effect;
    var ra := Read(s.mem, fp - 8, 8);
    var a, b := Ld(8, RA, SP, -8), Ld(8, FP, SP, -16);
    ExecTwo(sym, a, b, s);
    LoadBoth(sym, s, fp);
    var s2 := s.Set(RA, ra).Set(FP, Read(s.mem, fp - 16, 8));
    assert [a, b, Jr(RA)] == [a, b] + [Jr(RA)];
    ExecThen(sym, [a, b], [Jr(RA)], s, s2);
    JumpBack(sym, s2);
  }

  lemma LoadBoth(sym: nat -> int, s: State, fp: int)
    requires s.Get(SP) == fp && 16 <= fp < TWO_63
    ensures Effect(sym, Ld(8, FP, SP, -16), Effect(sym, Ld(8, RA, SP, -8), s))
         == s.Set(RA, Read(s.mem, fp - 8, 8)).Set(FP, Read(s.mem, fp - 16, 8))
  {
    hide Read;
  }

  lemma JumpBack(sym: nat -> int, s: State)
    ensures Exec(sym, [Jr(RA)], s) == Stop(s, At(s.Get(RA)))
  {
  }

  lemma SizeLoadable(size: nat)
    requires size < TWO_31
    ensures Encodable(LoadLargeInt64(size, T0))
  {
    hide LoadLargeInt64;
    LoadLargeInt64Exact(g => 0, size, T0, State(seq(32, _ => 0), map[]));
  }

  lemma EncodableConcat(a: seq<Instr>, b: seq<Instr>)
    requires Encodable(a)
    ensures Encodable(a + b) <==> Encodable(b)
  {
    if Encodable(a + b) {
      forall i | 0 <= i < |b| ensures b[i].Encodable() { assert b[i] == (a + b)[|a| + i]; }
    }
  }

  /** The prologue can always be encoded; the epilogue for every frame size but
      2048, where the test is on the negated size and the size itself is out of range. */
  lemma FrameEncodable(size: nat)
    requires size < TWO_31
    ensures Encodable(Prologue(size))
    ensures Encodable(Epilogue(size)) <==> size != 2048
  {
    if IsImm12(-(size as int)) {
      assert Epilogue(size)[0] == AddiD(SP, SP, size);
    } else {
      hide LoadLargeInt64;
      var load := LoadLargeInt64(size, T0);
      var enter := [St(8, RA, SP, -8), St(8, FP, SP, -16), SubD(SP, SP, T0), AddD(FP, SP, T0)];
      var leave := [AddD(SP, SP, T0), Ld(8, RA, SP, -8), Ld(8, FP, SP, -16), Jr(RA)];
      SizeLoadable(size);
      EncodableConcat(load, enter);
      EncodableConcat(load, leave);
      assert Encodable(enter) && Encodable(leave);
    }
  }

  // ---------- arguments ----------

  /** The argument registers hold values of the declared types. */
  ghost predicate ArgsGiven(args: seq<Arg>, vals: seq<int>, s: State) {
    && |args| == |vals| <= 8
    && forall i :: 0 <= i < |args| ==> s.Get(A0 + i) == vals[i] && HasTy(args[i].ty, vals[i])
  }

  function ArgEnv(args: seq<Arg>, vals: seq<int>, n: nat): Env
    requires n <= |args| == |vals|
  {
    if n == 0 then map[] else ArgEnv(args, vals, n - 1)[args[n - 1].id := vals[n - 1]]
  }

  lemma {:induction false} StoreArgsSound(c: Ctx, sym: nat -> int, args: seq<Arg>, vals: seq<int>, n: nat, mem: Bytes,
          s: State)
    requires CtxOk(c) && Matches(c, IrState(map[], mem), s) && ArgsGiven(args, vals, s) && n <= |args|
    requires forall i ::
        0 <= i < |args| ==> HasSlot(c.decls, c.lay.off, args[i].id) && c.decls[args[i].id].ty == args[i].ty
    ensures var stop := Exec(sym, StoreArgs(c.decls, c.lay.off, args, n), s);
      && stop.next == Fall
      && Matches(c, IrState(ArgEnv(args, vals, n), mem), stop.s)
      && forall r: Reg :: r != T8 ==> stop.s.Get(r) == s.Get(r)
  {
    hide Matches, CtxOk, StoreResult;
    if n > 0 {
      StoreArgsSound(c, sym, args, vals, n - 1, mem, s);
      var code := StoreArgs(c.decls, c.lay.off, args, n - 1);
      var s1 := Exec(sym, code, s).s;
      var k := n - 1;
      var reg: Reg := A0 + k;
      ExecThen(sym, code, StoreResult(c.decls, c.lay.off, args[k].id, reg), s, s1);
      var ir := IrState(ArgEnv(args, vals, k), mem);
      StoreName(c, sym, ir, s1, args[k].id, reg, vals[k]);
      StoreAny(c, sym, ir, s1, args[k].id, reg);
    }
  }
}
