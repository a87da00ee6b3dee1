/** The passes together, for whole modules with memory and calls: promotion keeps
    every call that finishes, and so does dead code elimination after it. */
module Passes {
  import opened Cfg
  import opened Ir
  import opened Exec
  import opened Renaming
  import opened Promotion
  import opened Mem2Reg
  import opened Program
  import opened Escape
  import opened ItemRuns
  import opened MemoryRuns
  import opened CellRuns
  import opened Preservation

  function FunctionOf(q: Proc): Function {
    Function(q.g, q.code)
  }

  /** Module to is module pr after promotion. */
  ghost predicate Promotes(pr: seq<Proc>, to: seq<Proc>, ps: seq<Problem>) {
    && |to| == |ps| == |pr|
    && forall f :: 0 <= f < |pr| ==> to[f].g == pr[f].g && PromotedTo(FunctionOf(pr[f]), to[f].code, ps[f])
  }

  /** A promoted module whose directly accessed allocas are used for nothing else,
      on a machine that does not look at them. */
  ghost predicate Setting(cells: set<Value>, pr: seq<Proc>, to: seq<Proc>, ps: seq<Problem>, mc: Machine) {
    Promotes(pr, to, ps) && Private(cells, pr) && Honest(cells, mc)
  }

  // ---------- facts about one function ----------

  lemma SettingFacts(cells: set<Value>, pr: seq<Proc>, to: seq<Proc>, ps: seq<Problem>, mc: Machine, f: nat)
    requires Setting(cells, pr, to, ps, mc) && f < |pr| && !pr[f].IsDeclaration()
    ensures f < |ps| && ps[f].f == FunctionOf(pr[f]) && ps[f].Valid() && CallsNamed(ps[f].f)
    ensures Rewritten(ps[f], to[f].code)
    ensures to[f].g == pr[f].g && ps[f].f.g == pr[f].g && ps[f].f.code == pr[f].code && |pr[f].g.blocks| > 0
    ensures f < |to| && !to[f].IsDeclaration()
  {
    hide Rewritten, Problem.Valid, Problem.Analysed, Settled, PromotedTo;
    assert PromotedTo(FunctionOf(pr[f]), to[f].code, ps[f]);
    PromotedGives(FunctionOf(pr[f]), to[f].code, ps[f]);
    forall b, i | b in pr[f].code && 0 <= i < |pr[f].code[b]| && pr[f].code[b][i].op.OpCall?
      ensures |pr[f].code[b][i].operands| > 0 && pr[f].code[b][i].operands[0].Func?
    {
      assert Fits(cells, pr[f].code[b][i]);
    }
  }

  /** A block of a function before promotion: instructions, no phis, a terminator. */
  lemma BlockIsProper(cells: set<Value>, pr: seq<Proc>, to: seq<Proc>, ps: seq<Problem>, mc: Machine, f: nat, b: Block)
    requires Setting(cells, pr, to, ps, mc) && f < |pr| && !pr[f].IsDeclaration() && b in pr[f].code
    ensures |pr[f].code[b]| > 0 && PhiCount(pr[f].code[b]) == 0
    ensures forall i :: 0 <= i < |pr[f].code[b]| ==> Proper(cells, pr[f].code[b][i])
    ensures !pr[f].code[b][|pr[f].code[b]| - 1].IsCellAccess()
  {
    hide Promotes, Honest, Problem.Valid, Problem.Analysed, PromotedTo;
    SettingFacts(cells, pr, to, ps, mc, f);
    ShapedBlock(ps[f], b);
    forall i | 0 <= i < |pr[f].code[b]| ensures Proper(cells, pr[f].code[b][i]) {
      assert Fits(cells, pr[f].code[b][i]);
    }
  }

  lemma ShapedBlock(p: Problem, b: Block)
    requires p.Valid() && b in p.f.code
    ensures |p.f.code[b]| > 0 && PhiCount(p.f.code[b]) == 0
    ensures forall i :: 0 <= i < |p.f.code[b]| ==>
              p.f.code[b][i].id.IsInstruction() && (p.f.code[b][i].op.OpAlloca? <==> p.f.code[b][i].id.Alloca?)
    ensures !p.f.code[b][|p.f.code[b]| - 1].IsCellAccess()
  {
    hide LoadsDefined, Problem.PhisPlaced, UsesOk, StoresOk, Problem.Analysed, NoPhisYet, PredsReachable;
    var t := p.f.code[b][|p.f.code[b]| - 1];
    assert t.IsTerminator();
  }

  // ---------- the start and the end of a call ----------

  lemma {:induction false} BindIs(args: seq<Val>, n: nat)
    requires n <= |args|
    ensures forall v :: v in Bind(args, n) <==> v.Argument? && v.no < n
    ensures forall i :: 0 <= i < n ==> Bind(args, n)[Argument(i)] == args[i]
  {
    if n > 0 { BindIs(args, n - 1); }
  }

  lemma StartTracks(cells: set<Value>, pr: seq<Proc>, mc: Machine, args: seq<Val>, depth: nat, mem: Mem, out: Out)
    requires forall a :: a in cells ==> a.Alloca?
    requires OpenAll(cells, args) && OpenMem(cells, mem) && Clean(mem, depth)
    ensures Tracks(cells, ItemSem(pr, mc, args, depth), depth, mem, Frame(Bind(args, |args|), mem, out),
        State(map[], map[], View(Visible(cells, mem), out)))
  {
    BindIs(args, |args|);
    var regs := Bind(args, |args|);
    var none: map<Value, Item> := map[];
    forall v | v !in cells
      ensures Agrees(ItemSem(pr, mc, args, depth), regs, none, v) && OpenResult(cells, Lookup(regs, v))
    {
    }
    forall a | a in cells ensures CellIs(mem, depth, a, none) {}
  }

  /** The call over items ended like the call in memory. */
  ghost predicate EndsAlike(cells: set<Value>, depth: nat, start: Mem, r: Outcome<Item, View>, e: Ended) {
    && r.Returned? && IsResult(r.result) && AsVal(r.result) == e.result
    && r.world.out == e.out && Trim(r.world.mem, depth) == Visible(cells, e.mem)
    && GoodEnd(cells, depth, start, e)
  }

  /** No address of a hidden object is left, and the hidden objects are as at the start. */
  ghost predicate GoodEnd(cells: set<Value>, depth: nat, start: Mem, e: Ended) {
    OpenResult(cells, e.result) && OpenMem(cells, e.mem) && Clean(e.mem, depth) && SameHidden(cells, start, e.mem)
  }

  lemma LeaveAlike(cells: set<Value>, pr: seq<Proc>, mc: Machine, args: seq<Val>, depth: nat, start: Mem, t: Instr,
          fr: Frame, st: State<Item, View>, v: Option<Val>)
    requires Tracks(cells, ItemSem(pr, mc, args, depth), depth, start, fr, st) && Clean(start, depth)
    requires Fits(cells, t) && !t.IsCellAccess() && Branch(t, fr.regs) == Leave(v)
    ensures Finish(ItemSem(pr, mc, args, depth), t, st.regs).Return?
    ensures EndsAlike(cells, depth, start,
        Returned(Finish(ItemSem(pr, mc, args, depth), t, st.regs).v, st.world), Ended(v, Trim(fr.mem, depth), fr.out))
  {
    if |t.operands| > 0 {
      var o := t.operands[0];
      assert Agrees(ItemSem(pr, mc, args, depth), fr.regs, st.regs, o) && OpenResult(cells, Lookup(fr.regs, o));
    }
    hide RegsTrack, Lookup, OpenMem, SameHidden, SameBelow, Visible, Trim, Clean;
    TrimRestores(cells, depth, start, fr.mem);
    OpenTrim(cells, fr.mem, depth);
    VisibleTrim(cells, fr.mem, depth);
  }

  lemma JumpAlike(cells: set<Value>, pr: seq<Proc>, mc: Machine, args: seq<Val>, depth: nat, start: Mem, t: Instr,
          fr: Frame, st: State<Item, View>, s: Block)
    requires Tracks(cells, ItemSem(pr, mc, args, depth), depth, start, fr, st)
    requires Fits(cells, t) && !t.IsCellAccess() && Branch(t, fr.regs) == JumpTo(s)
    ensures Finish(ItemSem(pr, mc, args, depth), t, st.regs) == Goto(s)
  {
    if |t.operands| > 0 {
      var o := t.operands[0];
      assert Agrees(ItemSem(pr, mc, args, depth), fr.regs, st.regs, o);
    }
  }

  // ---------- instructions, blocks and calls ----------

  lemma {:induction false} OneTracked(cells: set<Value>, pr: seq<Proc>, to: seq<Proc>, ps: seq<Problem>, mc: Machine,
          args: seq<Val>, ins: Instr, depth: nat, start: Mem, fr: Frame, st: State<Item, View>, fuel: nat)
    requires Setting(cells, pr, to, ps, mc) && Proper(cells, ins)
    requires Tracks(cells, ItemSem(to, mc, args, depth), depth, start, fr, st)
    requires ExecOne(pr, mc, ins, fr, depth, fuel).Done?
    ensures Step(ItemSem(to, mc, args, depth), ins, st).Some?
    ensures Tracks(cells, ItemSem(to, mc, args, depth), depth, start, ExecOne(pr, mc, ins, fr, depth, fuel).value,
        Step(ItemSem(to, mc, args, depth), ins, st).value)
    decreases fuel, 0, 0
  {
    var sem := ItemSem(to, mc, args, depth);
    hide Promotes, Private, Honest, ItemSem, Step, ExecSimple, CallProc, RegsTrack, MemTracks;
    if ins.IsCellLoad() {
      TrackCellLoad(cells, sem, mc, depth, start, ins, fr, st);
    } else if ins.IsCellStore() {
      TrackCellStore(cells, sem, mc, depth, start, ins, fr, st);
    } else if ins.op.OpCall? {
      var ys := LookupAll(fr.regs, ins.operands[1..]).value;
      MemOpen(cells, depth, start, fr, st);
      CallOpen(cells, to, mc, args, depth, ins, fr, st);
      hide LookupAll, Tracks, Proper, GoodEnd;
      var k := CallPromoted(cells, pr, to, ps, mc, ins.operands[0].fid, ys, depth + 1, fr.mem, fr.out, fuel - 1);
      var e := CallProc(pr, mc, ins.operands[0].fid, ys, depth + 1, fr.mem, fr.out, fuel - 1).value;
      EndFacts(cells, depth + 1, fr.mem, e);
      TrackCall(cells, to, mc, args, depth, start, ins, fr, st, ys, k, e);
    } else {
      TrackSimple(cells, to, mc, args, depth, start, ins, fr, st);
    }
  }

  lemma MemOpen(cells: set<Value>, depth: nat, start: Mem, fr: Frame, st: State<Item, View>)
    requires MemTracks(cells, depth, start, fr.mem, st.cells, st.world.mem)
    ensures OpenMem(cells, fr.mem) && Clean(fr.mem, depth + 1)
  {
  }

  lemma EndFacts(cells: set<Value>, depth: nat, start: Mem, e: Ended)
    requires GoodEnd(cells, depth, start, e)
    ensures OpenResult(cells, e.result) && OpenMem(cells, e.mem) && Clean(e.mem, depth)
    ensures SameHidden(cells, start, e.mem)
  {
  }

  lemma CallOpen(cells: set<Value>, to: seq<Proc>, mc: Machine, args: seq<Val>, depth: nat, ins: Instr, fr: Frame,
          st: State<Item, View>)
    requires RegsTrack(cells, ItemSem(to, mc, args, depth), depth, fr.regs, st.regs) && Fits(cells, ins)
    requires ins.op.OpCall? && LookupAll(fr.regs, ins.operands[1..]).Some?
    ensures OpenAll(cells, LookupAll(fr.regs, ins.operands[1..]).value)
  {
    forall v | v in ins.operands[1..] ensures v !in cells { assert v in ins.operands; }
    hide ItemSem, RegsTrack;
    OperandsTracked(cells, ItemSem(to, mc, args, depth), depth, fr.regs, st.regs, ins.operands[1..]);
  }

  lemma {:induction false} ListTracked(cells: set<Value>, pr: seq<Proc>, to: seq<Proc>, ps: seq<Problem>, mc: Machine,
          args: seq<Val>, list: seq<Instr>, depth: nat, start: Mem, fr: Frame, st: State<Item, View>, fuel: nat)
    requires Setting(cells, pr, to, ps, mc) && forall i :: 0 <= i < |list| ==> Proper(cells, list[i])
    requires Tracks(cells, ItemSem(to, mc, args, depth), depth, start, fr, st)
    requires ExecList(pr, mc, list, fr, depth, fuel).Done?
    ensures Steps(ItemSem(to, mc, args, depth), list, st).Some?
    ensures Tracks(cells, ItemSem(to, mc, args, depth), depth, start, ExecList(pr, mc, list, fr, depth, fuel).value,
        Steps(ItemSem(to, mc, args, depth), list, st).value)
    decreases fuel, 0, |list|
  {
    hide Setting, Proper, ItemSem, Step, ExecOne, Tracks;
    if |list| > 0 {
      OneTracked(cells, pr, to, ps, mc, args, list[0], depth, start, fr, st, fuel);
      ListTracked(cells, pr, to, ps, mc, args, list[1..], depth, start, ExecOne(pr, mc, list[0], fr, depth, fuel).value,
          Step(ItemSem(to, mc, args, depth), list[0], st).value, fuel);
    }
  }

  /** From block b to the return: what is done in memory is done over items and cells. */
  lemma {:induction false} BlocksTracked(cells: set<Value>, pr: seq<Proc>, to: seq<Proc>, ps: seq<Problem>, mc: Machine,
          args: seq<Val>, f: nat, b: Block, from: Block, depth: nat, start: Mem, fr: Frame, st: State<Item, View>,
          fuel: nat)
    requires Setting(cells, pr, to, ps, mc) && f < |pr| && !pr[f].IsDeclaration() && Clean(start, depth)
    requires Tracks(cells, ItemSem(to, mc, args, depth), depth, start, fr, st)
    requires RunBlocks(pr, mc, pr[f].code, b, from, fr, depth, fuel).Done?
    ensures EndsAlike(cells, depth, start, RunFrom(ItemSem(to, mc, args, depth), pr[f].code, b, from, st, fuel),
        RunBlocks(pr, mc, pr[f].code, b, from, fr, depth, fuel).value)
    decreases fuel, 1, 0
  {
    hide *;
    var sem, code := ItemSem(to, mc, args, depth), pr[f].code;
    DoneHasBlock(pr, mc, code, b, from, fr, depth, fuel);
    BlockIsProper(cells, pr, to, ps, mc, f, b);
    var n := |code[b]| - 1;
    var body, t := code[b][..n], code[b][n];
    assert code[b] == [] + (body + [t]);
    NoPhisEnter(sem, from, fr, st);
    BlocksUnfold(pr, mc, code, b, from, fr, depth, fuel, [], body, t);
    RunUnfolds(sem, code, b, from, st, fuel, [], body, t);
    assert forall i :: 0 <= i < |body| ==> body[i] == code[b][i];
    ListTracked(cells, pr, to, ps, mc, args, body, depth, start, fr, st, fuel);
    var fr' := ExecList(pr, mc, body, fr, depth, fuel).value;
    var st' := Steps(sem, body, st).value;
    BlockResultIs(sem, body, t, st);
    ContinueIs(sem, code, b, BlockResult(sem, body, t, st), fuel - 1);
    ProperFits(cells, t);
    match Branch(t, fr'.regs)
    case Leave(v) => LeaveAlike(cells, to, mc, args, depth, start, t, fr', st', v);
    case JumpTo(s) =>
      JumpAlike(cells, to, mc, args, depth, start, t, fr', st', s);
      BlocksTracked(cells, pr, to, ps, mc, args, f, s, b, depth, start, fr', st', fuel - 1);
  }

  lemma ProperFits(cells: set<Value>, ins: Instr)
    requires Proper(cells, ins)
    ensures Fits(cells, ins)
  {
  }

  lemma DoneHasBlock(pr: seq<Proc>, mc: Machine, code: map<Block, seq<Instr>>, b: Block, from: Block, fr: Frame,
          depth: nat, fuel: nat)
    requires RunBlocks(pr, mc, code, b, from, fr, depth, fuel).Done?
    ensures fuel > 0 && b in code
  {
  }

  lemma NoPhisEnter(sem: Sem<Item, View>, from: Block, fr: Frame, st: State<Item, View>)
    ensures fr.(regs := EnterBlock([], from, fr.regs, fr.regs)) == fr
    ensures st.(regs := EnterPhis(sem, [], from, st.regs, st.regs)) == st
  {
  }

  /** A call that finishes before promotion finishes after it, in the memory
      without the hidden objects, with the same result and output; the memory left
      is the same but for them, and they are as they were before the call. */
  lemma {:induction false} CallPromoted(cells: set<Value>, pr: seq<Proc>, to: seq<Proc>, ps: seq<Problem>, mc: Machine,
          f: nat, args: seq<Val>, depth: nat, mem: Mem, out: Out, fuel: nat) returns (k: nat)
    requires Setting(cells, pr, to, ps, mc)
    requires OpenAll(cells, args) && OpenMem(cells, mem) && Clean(mem, depth)
    requires CallProc(pr, mc, f, args, depth, mem, out, fuel).Done?
    ensures var e := CallProc(pr, mc, f, args, depth, mem, out, fuel).value;
      && CallProc(to, mc, f, args, depth, Visible(cells, mem), out, k)
          == Done(Ended(e.result, Visible(cells, e.mem), e.out))
      && GoodEnd(cells, depth, mem, e)
    decreases fuel, 2
  {
    hide *;
    CallCases(pr, mc, f, args, depth, mem, out, fuel);
    if pr[f].IsDeclaration() {
      ExtPromoted(cells, pr, to, ps, mc, f, args, depth, mem, out, fuel);
      k := 0;
    } else {
      k := BodyPromoted(cells, pr, to, ps, mc, f, args, depth, mem, out, fuel);
    }
  }

  lemma CallCases(pr: seq<Proc>, mc: Machine, f: nat, args: seq<Val>, depth: nat, mem: Mem, out: Out, fuel: nat)
    requires CallProc(pr, mc, f, args, depth, mem, out, fuel).Done?
    ensures f < |pr|
  {
  }

  lemma ExtPromoted(cells: set<Value>, pr: seq<Proc>, to: seq<Proc>, ps: seq<Problem>, mc: Machine, f: nat,
          args: seq<Val>, depth: nat, mem: Mem, out: Out, fuel: nat)
    requires Setting(cells, pr, to, ps, mc) && f < |pr| && pr[f].IsDeclaration()
    requires OpenAll(cells, args) && OpenMem(cells, mem) && Clean(mem, depth)
    requires CallProc(pr, mc, f, args, depth, mem, out, fuel).Done?
    ensures var e := CallProc(pr, mc, f, args, depth, mem, out, fuel).value;
      && CallProc(to, mc, f, args, depth, Visible(cells, mem), out, 0)
          == Done(Ended(e.result, Visible(cells, e.mem), e.out))
      && GoodEnd(cells, depth, mem, e)
  {
    assert ExtHonest(cells, mc, f, args, mem, out);
    hide Private, PromotedTo, Visible, Trim, OpenMem, SameHidden, Clean;
    var mem' := mc.ext(f, args, mem, out).value.1;
    HiddenBelow(cells, depth, mem, mem');
    TrimRestores(cells, depth, mem, mem');
    OpenTrim(cells, mem', depth);
    VisibleTrim(cells, mem', depth);
  }

  lemma HiddenBelow(cells: set<Value>, depth: nat, a: Mem, b: Mem)
    requires SameHidden(cells, a, b)
    ensures SameBelow(cells, depth, a, b)
  {
  }

  lemma {:induction false} BodyPromoted(cells: set<Value>, pr: seq<Proc>, to: seq<Proc>, ps: seq<Problem>, mc: Machine,
          f: nat, args: seq<Val>, depth: nat, mem: Mem, out: Out, fuel: nat) returns (k: nat)
    requires Setting(cells, pr, to, ps, mc) && f < |pr| && !pr[f].IsDeclaration()
    requires OpenAll(cells, args) && OpenMem(cells, mem) && Clean(mem, depth)
    requires CallProc(pr, mc, f, args, depth, mem, out, fuel).Done?
    ensures var e := CallProc(pr, mc, f, args, depth, mem, out, fuel).value;
      && CallProc(to, mc, f, args, depth, Visible(cells, mem), out, k)
          == Done(Ended(e.result, Visible(cells, e.mem), e.out))
      && GoodEnd(cells, depth, mem, e)
    decreases fuel, 1, 1
  {
    hide *;
    SettingFacts(cells, pr, to, ps, mc, f);
    SettingCells(cells, pr, to, ps, mc);
    var sem, entry := ItemSem(to, mc, args, depth), pr[f].g.blocks[0];
    var fr, st := Frame(Bind(args, |args|), mem, out), State(map[], map[], View(Visible(cells, mem), out));
    CallIs(pr, mc, f, args, depth, mem, out, fuel);
    StartTracks(cells, to, mc, args, depth, mem, out);
    BlocksTracked(cells, pr, to, ps, mc, args, f, entry, NULL, depth, mem, fr, st, fuel);
    var e := CallProc(pr, mc, f, args, depth, mem, out, fuel).value;
    AlikeFacts(cells, depth, mem, RunFrom(sem, pr[f].code, entry, NULL, st, fuel), e);
    RunIs(sem, ps[f].f, st.world, fuel);
    RunIs(sem, Function(ps[f].f.g, to[f].code), st.world, fuel);
    PromotionPreservesRuns(ps[f], to[f].code, sem, st.world, fuel);
    var none := Frame(Bind(args, |args|), Visible(cells, mem), out);
    StartMirrors(to, mc, args, depth, Visible(cells, mem), out);
    EntryFacts(ps[f]);
    k := MirrorRun(ps[f], to[f].code, to, mc, args, depth, entry, NULL, none, st, fuel);
    CallIs(to, mc, f, args, depth, Visible(cells, mem), out, k);
  }

  lemma SettingCells(cells: set<Value>, pr: seq<Proc>, to: seq<Proc>, ps: seq<Problem>, mc: Machine)
    requires Setting(cells, pr, to, ps, mc)
    ensures |to| == |ps| == |pr| && forall a :: a in cells ==> a.Alloca?
  {
  }

  lemma CallIs(pr: seq<Proc>, mc: Machine, f: nat, args: seq<Val>, depth: nat, mem: Mem, out: Out, fuel: nat)
    requires f < |pr| && !pr[f].IsDeclaration()
    ensures CallProc(pr, mc, f, args, depth, mem, out, fuel)
        == RunBlocks(pr, mc, pr[f].code, pr[f].g.blocks[0], NULL, Frame(Bind(args, |args|), mem, out), depth, fuel)
  {
  }

  lemma AlikeFacts(cells: set<Value>, depth: nat, start: Mem, r: Outcome<Item, View>, e: Ended)
    requires EndsAlike(cells, depth, start, r, e)
    ensures r.Returned? && IsResult(r.result) && AsVal(r.result) == e.result
    ensures r.world.out == e.out && Trim(r.world.mem, depth) == Visible(cells, e.mem)
    ensures GoodEnd(cells, depth, start, e)
  {
  }

  lemma RunIs(sem: Sem<Item, View>, f: Function, w: View, fuel: nat)
    requires |f.g.blocks| > 0
    ensures Exec.Run(sem, f, w, fuel) == RunFrom(sem, f.code, f.g.blocks[0], NULL, State(map[], map[], w), fuel)
  {
  }

  lemma EntryFacts(p: Problem)
    requires p.Valid()
    ensures |p.f.g.blocks| > 0 && p.f.g.blocks[0] in p.f.g.blocks && Reachable(p.f.g, p.f.g.blocks[0])
  {
    EntryReachable(p.f.g);
  }

  lemma StartMirrors(pr: seq<Proc>, mc: Machine, args: seq<Val>, depth: nat, mem: Mem, out: Out)
    ensures Mirrors(ItemSem(pr, mc, args, depth), Frame(Bind(args, |args|), mem, out),
        State(map[], map[], View(mem, out)))
  {
    BindIs(args, |args|);
    var regs := Bind(args, |args|);
    var none: map<Value, Item> := map[];
    forall v ensures Agrees(ItemSem(pr, mc, args, depth), regs, none, v) {}
  }

  // ---------- both passes ----------

  /** Promotion, then dead code elimination: a call from outside that finishes
      before the passes finishes after them, with the same result, memory and output. */
  lemma PassesPreserveCalls(cells: set<Value>, pr: seq<Proc>, to: seq<Proc>, ps: seq<Problem>, mc: Machine,
          isPure: map<nat, bool>, swept: seq<Proc>, f: nat, args: seq<Val>, depth: nat, mem: Mem, out: Out, fuel: nat)
      returns (k: nat)
    requires Setting(cells, pr, to, ps, mc) && Analysed(to, isPure) && AllSwept(to, isPure, swept)
    requires OpenAll(cells, args) && OpenMem(cells, mem) && Clean(mem, depth) && Visible(cells, mem) == mem
    requires CallProc(pr, mc, f, args, depth, mem, out, fuel).Done?
    ensures CallProc(to, mc, f, args, depth, mem, out, k) == CallProc(pr, mc, f, args, depth, mem, out, fuel)
    ensures CallProc(swept, mc, f, args, depth, mem, out, k) == CallProc(pr, mc, f, args, depth, mem, out, fuel)
  {
    hide *;
    k := CallPromoted(cells, pr, to, ps, mc, f, args, depth, mem, out, fuel);
    var e := CallProc(pr, mc, f, args, depth, mem, out, fuel).value;
    EndFacts(cells, depth, mem, e);
    NothingHidden(cells, mem, e.mem);
    EliminationPreservesRuns(to, isPure, swept, mc, f, args, depth, mem, out, k);
  }
}
