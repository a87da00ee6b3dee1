/** A run in memory whose private allocas are taken out of the memory: what the
    function does over items and cells, step by step. */
module CellRuns {
  import opened Ir
  import opened Exec
  import opened Program
  import opened Escape
  import opened ItemRuns
  import opened MemoryRuns

  /** The value of a cell of the frame at this depth. */
  function CellAt(mem: Mem, depth: nat, a: Value): Option<Val> {
    if Cell(OLocal(depth, a), 0) in mem then Some(mem[Cell(OLocal(depth, a), 0)]) else None
  }

  ghost predicate CellIs(mem: Mem, depth: nat, a: Value, items: map<Value, Item>) {
    AsVal(Get(items, a)) == CellAt(mem, depth, a) && (a in items ==> items[a].Holds?)
  }

  /** The registers: the items, for all but the cells, and the cells their addresses. */
  ghost predicate RegsTrack(cells: set<Value>, sem: Sem<Item, View>, depth: nat, regs: Regs, items: map<Value, Item>) {
    && (forall v :: v !in cells ==> Agrees(sem, regs, items, v))
    && (forall v :: v !in cells ==> OpenResult(cells, Lookup(regs, v)))
    && (forall a :: a in cells && a in regs ==> regs[a] == VPtr(OLocal(depth, a), 0))
  }

  /** The memory: what is visible, and a cell for each private alloca of the frame;
      nothing deeper, and below the frame the hidden objects as at its start. */
  ghost predicate MemTracks(cells: set<Value>, depth: nat, start: Mem, mem: Mem, items: map<Value, Item>, w: Mem) {
    && w == Visible(cells, mem)
    && (forall a :: a in cells ==> CellIs(mem, depth, a, items))
    && OpenMem(cells, mem) && Clean(mem, depth + 1) && SameBelow(cells, depth, start, mem)
  }

  ghost predicate Tracks(cells: set<Value>, sem: Sem<Item, View>, depth: nat, start: Mem, fr: Frame,
          st: State<Item, View>)
  {
    && RegsTrack(cells, sem, depth, fr.regs, st.regs)
    && MemTracks(cells, depth, start, fr.mem, st.cells, st.world.mem)
    && st.world.out == fr.out
  }

  // ---------- registers ----------

  lemma DefineTracks(cells: set<Value>, sem: Sem<Item, View>, depth: nat, regs: Regs, items: map<Value, Item>,
          id: Value, r: Item)
    requires RegsTrack(cells, sem, depth, regs, items) && id.IsInstruction()
    requires if id in cells then r == Holds(VPtr(OLocal(depth, id), 0)) else OpenResult(cells, AsVal(Some(r)))
    ensures RegsTrack(cells, sem, depth, SetVal(regs, id, AsVal(Some(r))), items[id := r])
  {
    var regs', items' := SetVal(regs, id, AsVal(Some(r))), items[id := r];
    forall v | v !in cells ensures Agrees(sem, regs', items', v) && OpenResult(cells, Lookup(regs', v)) {
      assert Agrees(sem, regs, items, v) && OpenResult(cells, Lookup(regs, v));
    }
  }

  /** The operands of an instruction that accesses no cell. */
  lemma OperandsTracked(cells: set<Value>, sem: Sem<Item, View>, depth: nat, regs: Regs, items: map<Value, Item>,
          vs: seq<Value>)
    requires RegsTrack(cells, sem, depth, regs, items) && forall v :: v in vs ==> v !in cells
    ensures LookupAll(regs, vs).Some? ==> EvalAll(sem, items, vs).Some?
    ensures EvalAll(sem, items, vs).Some? ==> Reads(regs, vs, EvalAll(sem, items, vs).value)
    ensures LookupAll(regs, vs).Some? ==> OpenAll(cells, LookupAll(regs, vs).value)
    ensures forall v :: v in vs ==> OpenResult(cells, Lookup(regs, v))
  {
    forall v | v in vs ensures Agrees(sem, regs, items, v) {}
    OperandsRead(sem, regs, items, vs);
    AllAgree(sem, regs, items, vs);
    OperandsOpen(cells, regs, vs);
  }

  lemma {:induction false} OperandsOpen(cells: set<Value>, regs: Regs, vs: seq<Value>)
    requires forall v :: v in vs ==> OpenResult(cells, Lookup(regs, v))
    ensures LookupAll(regs, vs).Some? ==> OpenAll(cells, LookupAll(regs, vs).value)
  {
    if |vs| > 0 {
      assert vs[0] in vs;
      OperandsOpen(cells, regs, vs[1..]);
    }
  }

  // ---------- memory ----------

  lemma StoreTracks(cells: set<Value>, depth: nat, start: Mem, mem: Mem, items: map<Value, Item>, w: Mem, c: Cell,
          x: Val)
    requires MemTracks(cells, depth, start, mem, items, w) && !Hidden(cells, c.obj) && Live(c.obj, depth)
    requires Open(cells, x)
    ensures MemTracks(cells, depth, start, mem[c := x], items, w[c := x])
  {
    VisibleStore(cells, mem, c, x);
    OpenStore(cells, mem, c, x);
    forall a | a in cells ensures CellIs(mem[c := x], depth, a, items) {
      assert CellIs(mem, depth, a, items);
      assert Hidden(cells, OLocal(depth, a));
    }
    forall d: Cell | Hidden(cells, d.obj) && d.obj.depth < depth ensures SameAt(start, mem[c := x], d) {
      assert SameAt(start, mem, d);
    }
  }

  lemma CellStoreTracks(cells: set<Value>, depth: nat, start: Mem, mem: Mem, items: map<Value, Item>, w: Mem,
          a: Value, x: Val)
    requires MemTracks(cells, depth, start, mem, items, w) && a in cells && Open(cells, x)
    ensures MemTracks(cells, depth, start, mem[Cell(OLocal(depth, a), 0) := x], items[a := Holds(x)], w)
  {
    var c := Cell(OLocal(depth, a), 0);
    VisibleStore(cells, mem, c, x);
    OpenStore(cells, mem, c, x);
    forall a' | a' in cells ensures CellIs(mem[c := x], depth, a', items[a := Holds(x)]) {
      assert CellIs(mem, depth, a', items);
    }
    forall d: Cell | Hidden(cells, d.obj) && d.obj.depth < depth ensures SameAt(start, mem[c := x], d) {
      assert SameAt(start, mem, d);
    }
  }

  /** After a call that leaves the hidden objects as they were. */
  lemma CallTracks(cells: set<Value>, depth: nat, start: Mem, mem: Mem, items: map<Value, Item>, w: Mem, mem': Mem)
    requires MemTracks(cells, depth, start, mem, items, w)
    requires OpenMem(cells, mem') && Clean(mem', depth + 1) && SameHidden(cells, mem, mem')
    ensures MemTracks(cells, depth, start, mem', items, Visible(cells, mem'))
  {
    forall a | a in cells ensures CellIs(mem', depth, a, items) {
      assert CellIs(mem, depth, a, items);
      assert Hidden(cells, OLocal(depth, a));
      assert SameAt(mem, mem', Cell(OLocal(depth, a), 0));
    }
    forall d: Cell | Hidden(cells, d.obj) && d.obj.depth < depth ensures SameAt(start, mem', d) {
      assert SameAt(start, mem, d) && SameAt(mem, mem', d);
    }
  }

  // ---------- one instruction ----------

  ghost predicate Proper(cells: set<Value>, ins: Instr) {
    && (forall a :: a in cells ==> a.Alloca?)
    && Fits(cells, ins) && ins.id.IsInstruction() && (ins.op.OpAlloca? <==> ins.id.Alloca?)
  }

  lemma TrackCellLoad(cells: set<Value>, sem: Sem<Item, View>, mc: Machine, depth: nat, start: Mem, ins: Instr,
          fr: Frame, st: State<Item, View>)
    requires Proper(cells, ins) && ins.IsCellLoad() && Tracks(cells, sem, depth, start, fr, st)
    requires ExecSimple(mc, ins, fr, depth).Done?
    ensures Step(sem, ins, st).Some?
    ensures Tracks(cells, sem, depth, start, ExecSimple(mc, ins, fr, depth).value, Step(sem, ins, st).value)
  {
    var a := ins.operands[0];
    assert CellIs(fr.mem, depth, a, st.cells);
    assert Lookup(fr.regs, a) == Some(VPtr(OLocal(depth, a), 0));
    var x := fr.mem[Cell(OLocal(depth, a), 0)];
    assert st.cells[a] == Holds(x);
    DefineTracks(cells, sem, depth, fr.regs, st.regs, ins.id, Holds(x));
  }

  lemma TrackCellStore(cells: set<Value>, sem: Sem<Item, View>, mc: Machine, depth: nat, start: Mem, ins: Instr,
          fr: Frame, st: State<Item, View>)
    requires Proper(cells, ins) && ins.IsCellStore() && Tracks(cells, sem, depth, start, fr, st)
    requires ExecSimple(mc, ins, fr, depth).Done?
    ensures Step(sem, ins, st).Some?
    ensures Tracks(cells, sem, depth, start, ExecSimple(mc, ins, fr, depth).value, Step(sem, ins, st).value)
  {
    var a := ins.operands[1];
    var x := Lookup(fr.regs, ins.operands[0]).value;
    assert Lookup(fr.regs, a) == Some(VPtr(OLocal(depth, a), 0));
    assert Agrees(sem, fr.regs, st.regs, ins.operands[0]) && OpenResult(cells, Lookup(fr.regs, ins.operands[0]));
    assert Eval(sem, st.regs, ins.operands[0]) == Some(Holds(x));
    hide RegsTrack, MemTracks;
    CellStoreTracks(cells, depth, start, fr.mem, st.cells, st.world.mem, a, x);
  }

  /** What an instruction that accesses no cell does over items. */
  lemma SimpleItem(cells: set<Value>, pr: seq<Proc>, mc: Machine, depth: nat, start: Mem, ins: Instr, xs: seq<Item>,
          fr: Frame, items: map<Value, Item>, w: View) returns (r: Item, w': View)
    requires Proper(cells, ins) && !ins.IsCellAccess() && !ins.op.OpCall? && Honest(cells, mc)
    requires MemTracks(cells, depth, start, fr.mem, items, w.mem) && w.out == fr.out
    requires Reads(fr.regs, ins.operands, xs) && forall v :: v in ins.operands ==> OpenResult(cells, Lookup(fr.regs, v))
    requires LookupAll(fr.regs, ins.operands).Some? ==> OpenAll(cells, LookupAll(fr.regs, ins.operands).value)
    requires ExecSimple(mc, ins, fr, depth).Done?
    ensures ItemStep(pr, mc, depth, ins.op, ins.id, xs, w) == Some((r, w'))
    ensures if ins.id in cells then r == Holds(VPtr(OLocal(depth, ins.id), 0)) else OpenResult(cells, AsVal(Some(r)))
    ensures var to := ExecSimple(mc, ins, fr, depth).value;
      && to.regs == (if ins.Defines() then SetVal(fr.regs, ins.id, AsVal(Some(r))) else fr.regs)
      && MemTracks(cells, depth, start, to.mem, items, w'.mem) && w'.out == to.out
  {
    hide MemTracks, LookupAll, AllVals, Lookup, Honest;
    assert forall i :: 0 <= i < |ins.operands| ==> ins.operands[i] in ins.operands;
    assert forall i :: 0 <= i < |ins.operands| ==> Lookup(fr.regs, ins.operands[i]) == AsVal(Some(xs[i]));
    match ins.op
    case OpAlloca => r, w' := Holds(VPtr(OLocal(depth, ins.id), 0)), w;
    case OpLoad =>
      var p := xs[0].x;
      LoadVisible(cells, depth, start, fr.mem, items, w.mem, Cell(p.obj, p.off));
      r, w' := Holds(fr.mem[Cell(p.obj, p.off)]), w;
    case OpStore =>
      var x, p := xs[0].x, xs[1].x;
      assert Lookup(fr.regs, ins.operands[0]) == Some(x) && Lookup(fr.regs, ins.operands[1]) == Some(p);
      StoreTracks(cells, depth, start, fr.mem, items, w.mem, Cell(p.obj, p.off), x);
      r, w' := Nothing, w.(mem := w.mem[Cell(p.obj, p.off) := x]);
    case OpGep =>
      var p := xs[0].x;
      r, w' := Holds(VPtr(p.obj, p.off + mc.gepIndex(ins.id, LookupAll(fr.regs, ins.operands[1..]).value).value)), w;
    case OpOther(_) =>
      AluOpen(cells, mc, ins, LookupAll(fr.regs, ins.operands).value);
      r, w' := Holds(mc.alu(ins.op, ins.id, LookupAll(fr.regs, ins.operands).value).value), w;
  }

  lemma AluOpen(cells: set<Value>, mc: Machine, ins: Instr, xs: seq<Val>)
    requires Honest(cells, mc) && OpenAll(cells, xs)
    ensures OpenResult(cells, mc.alu(ins.op, ins.id, xs))
  {
  }

  lemma LoadVisible(cells: set<Value>, depth: nat, start: Mem, mem: Mem, items: map<Value, Item>, w: Mem, c: Cell)
    requires MemTracks(cells, depth, start, mem, items, w) && !Hidden(cells, c.obj) && c in mem
    ensures c in w && w[c] == mem[c] && Open(cells, mem[c])
  {
  }

  lemma TrackSimple(cells: set<Value>, pr: seq<Proc>, mc: Machine, args: seq<Val>, depth: nat, start: Mem, ins: Instr,
          fr: Frame, st: State<Item, View>)
    requires Proper(cells, ins) && !ins.IsCellAccess() && !ins.op.OpCall? && Honest(cells, mc)
    requires Tracks(cells, ItemSem(pr, mc, args, depth), depth, start, fr, st)
    requires ExecSimple(mc, ins, fr, depth).Done?
    ensures Step(ItemSem(pr, mc, args, depth), ins, st).Some?
    ensures Tracks(cells, ItemSem(pr, mc, args, depth), depth, start, ExecSimple(mc, ins, fr, depth).value,
        Step(ItemSem(pr, mc, args, depth), ins, st).value)
  {
    var sem := ItemSem(pr, mc, args, depth);
    SimpleOperands(mc, ins, fr, depth);
    StepIs(pr, mc, args, depth, ins, st);
    hide RegsTrack, MemTracks, ItemSem, Step, ItemStep, ExecSimple, Reads, LookupAll, EvalAll, Honest, Lookup;
    OperandsTracked(cells, sem, depth, fr.regs, st.regs, ins.operands);
    var xs := EvalAll(sem, st.regs, ins.operands).value;
    var r, w := SimpleItem(cells, pr, mc, depth, start, ins, xs, fr, st.cells, st.world);
    if ins.Defines() { DefineTracks(cells, sem, depth, fr.regs, st.regs, ins.id, r); }
  }

  /** An instruction that is done had values for all its operands; an alloca has none. */
  lemma SimpleOperands(mc: Machine, ins: Instr, fr: Frame, depth: nat)
    requires ExecSimple(mc, ins, fr, depth).Done? && (ins.op.OpAlloca? ==> ins.operands == [])
    ensures LookupAll(fr.regs, ins.operands).Some?
  {
    var vs := ins.operands;
    if ins.op.OpStore? {
      assert vs[1..][0] == vs[1] && |vs[1..][1..]| == 0;
      assert LookupAll(fr.regs, vs[1..]).Some?;
    } else if ins.op.OpLoad? {
      assert |vs[1..]| == 0;
    }
  }

  /** The operands of a call: the function it names and the arguments. */
  lemma CallItems(cells: set<Value>, pr: seq<Proc>, mc: Machine, args: seq<Val>, depth: nat, ins: Instr, regs: Regs,
          items: map<Value, Item>, ys: seq<Val>) returns (xs: seq<Item>)
    requires Fits(cells, ins) && ins.op.OpCall? && RegsTrack(cells, ItemSem(pr, mc, args, depth), depth, regs, items)
    requires LookupAll(regs, ins.operands[1..]) == Some(ys)
    ensures EvalAll(ItemSem(pr, mc, args, depth), items, ins.operands) == Some(xs)
    ensures |xs| > 0 && xs[0] == Code(ins.operands[0].fid) && AllVals(xs[1..]) == Some(ys)
  {
    var sem := ItemSem(pr, mc, args, depth);
    EvalAllHead(sem, items, ins.operands);
    assert Eval(sem, items, ins.operands[0]) == Some(Code(ins.operands[0].fid));
    forall v | v in ins.operands[1..] ensures v !in cells { assert v in ins.operands; }
    hide RegsTrack, ItemSem, EvalAll, Agrees, Eval;
    OperandsTracked(cells, sem, depth, regs, items, ins.operands[1..]);
    xs := EvalAll(sem, items, ins.operands).value;
  }

  lemma CallStep(pr: seq<Proc>, mc: Machine, depth: nat, id: Value, xs: seq<Item>, w: View, ys: seq<Val>, e: Ended)
    requires |xs| > 0 && xs[0].Code? && AllVals(xs[1..]) == Some(ys)
    requires CallEnd(pr, mc, xs[0].fid, ys, depth + 1, w) == Some(e)
    ensures ItemStep(pr, mc, depth, OpCall, id, xs, w) == Some((ToItem(e.result), View(e.mem, e.out)))
  {
  }

  /** A call, given what it does in the module after promotion. */
  lemma TrackCall(cells: set<Value>, pr: seq<Proc>, mc: Machine, args: seq<Val>, depth: nat, start: Mem, ins: Instr,
          fr: Frame, st: State<Item, View>, ys: seq<Val>, k: nat, e: Ended)
    requires Proper(cells, ins) && ins.op.OpCall?
    requires Tracks(cells, ItemSem(pr, mc, args, depth), depth, start, fr, st)
    requires LookupAll(fr.regs, ins.operands[1..]) == Some(ys)
    requires CallProc(pr, mc, ins.operands[0].fid, ys, depth + 1, Visible(cells, fr.mem), fr.out, k)
        == Done(Ended(e.result, Visible(cells, e.mem), e.out))
    requires OpenResult(cells, e.result) && OpenMem(cells, e.mem) && Clean(e.mem, depth + 1)
    requires SameHidden(cells, fr.mem, e.mem)
    ensures Step(ItemSem(pr, mc, args, depth), ins, st).Some?
    ensures Tracks(cells, ItemSem(pr, mc, args, depth), depth, start,
        Frame(SetVal(fr.regs, ins.id, e.result), e.mem, e.out), Step(ItemSem(pr, mc, args, depth), ins, st).value)
  {
    var sem := ItemSem(pr, mc, args, depth);
    var g := ins.operands[0].fid;
    StepIs(pr, mc, args, depth, ins, st);
    hide RegsTrack, ItemSem, Step, EvalAll, SetVal, CallProc, CallEnd, Visible, SameHidden, Agrees, Eval, AllVals,
        LookupAll, Open, OpenMem, Clean, Fits, ItemStep;
    var xs := CallItems(cells, pr, mc, args, depth, ins, fr.regs, st.regs, ys);
    CallTracks(cells, depth, start, fr.mem, st.cells, st.world.mem, e.mem);
    assert st.world == View(Visible(cells, fr.mem), fr.out);
    hide MemTracks;
    CallEndIs(pr, mc, g, ys, depth + 1, st.world, k, Ended(e.result, Visible(cells, e.mem), e.out));
    CallStep(pr, mc, depth, ins.id, xs, st.world, ys, Ended(e.result, Visible(cells, e.mem), e.out));
    DefineTracks(cells, sem, depth, fr.regs, st.regs, ins.id, ToItem(e.result));
  }
}
