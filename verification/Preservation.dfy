/** Removing the dead instructions of every function keeps every finished run:
    same result, same memory, same output, within the same fuel. */
module Preservation {
  import opened Cfg
  import opened Ir
  import opened Exec
  import opened Program
  import opened Purity
  import opened Liveness
  import FuncInfo

  function Drop(fr: Frame, del: set<Value>): Frame {
    fr.(regs := fr.regs - del)
  }

  /** The module before, and after every function is swept. */
  ghost predicate AllSwept(pr: seq<Proc>, isPure: map<nat, bool>, swept: seq<Proc>) {
    && |swept| == |pr|
    && (forall f :: 0 <= f < |pr| ==> swept[f] == Swept(pr[f], isPure))
  }

  /** What the pass knows of the module it changes. */
  ghost predicate Analysed(pr: seq<Proc>, isPure: map<nat, bool>) {
    && Ok(pr)
    && AllRight(pr)
    && FuncInfo.ExactlyPure(pr, isPure)
  }

  // ---------- registers ----------

  lemma LookupDrop(regs: Regs, del: set<Value>, v: Value)
    requires v !in del
    ensures Lookup(regs - del, v) == Lookup(regs, v)
  {
  }

  lemma {:induction false} LookupAllDrop(regs: Regs, del: set<Value>, vs: seq<Value>)
    requires forall v :: v in vs ==> v !in del
    ensures LookupAll(regs - del, vs) == LookupAll(regs, vs)
  {
    if |vs| > 0 {
      assert vs[0] in vs;
      LookupDrop(regs, del, vs[0]);
      LookupAllDrop(regs, del, vs[1..]);
    }
  }

  lemma SetDrop(regs: Regs, del: set<Value>, v: Value, x: Option<Val>)
    ensures v in del ==> SetVal(regs, v, x) - del == regs - del
    ensures v !in del ==> SetVal(regs, v, x) - del == SetVal(regs - del, v, x)
  {
    match x
    case Some(y) =>
      if v in del {
        assert regs[v := y] - del == regs - del;
      } else {
        assert regs[v := y] - del == (regs - del)[v := y];
      }
    case None =>
      assert (regs - {v}) - del == (regs - del) - {v};
      if v in del { assert (regs - del) - {v} == regs - del; }
  }

  // ---------- instructions without calls ----------

  lemma SimpleKept(mc: Machine, ins: Instr, fr: Frame, del: set<Value>, depth: nat)
    requires ins.id !in del && forall op :: op in ins.operands ==> op !in del
    requires ExecSimple(mc, ins, fr, depth).Done?
    ensures ExecSimple(mc, ins, Drop(fr, del), depth) == Done(Drop(ExecSimple(mc, ins, fr, depth).value, del))
  {
    hide LookupAll, Lookup;
    forall i | 0 <= i < |ins.operands|
        ensures Lookup(fr.regs - del, ins.operands[i]) == Lookup(fr.regs, ins.operands[i]) {
      LookupDrop(fr.regs, del, ins.operands[i]);
    }
    LookupAllDrop(fr.regs, del, ins.operands);
    if |ins.operands| > 0 { LookupAllDrop(fr.regs, del, ins.operands[1..]); }
    var to := ExecSimple(mc, ins, fr, depth).value;
    if !ins.op.OpStore? {
      assert ins.id in to.regs && to.regs == fr.regs[ins.id := to.regs[ins.id]];
      assert to.regs - del == (fr.regs - del)[ins.id := to.regs[ins.id]];
    }
  }

  lemma SimpleDead(mc: Machine, ins: Instr, fr: Frame, del: set<Value>, depth: nat)
    requires ins.id in del && !ins.op.OpStore? && ExecSimple(mc, ins, fr, depth).Done?
    ensures Drop(ExecSimple(mc, ins, fr, depth).value, del) == Drop(fr, del)
  {
    hide LookupAll, Lookup;
    var to := ExecSimple(mc, ins, fr, depth).value;
    assert to.regs == fr.regs[ins.id := to.regs[ins.id]];
    assert to.regs - del == fr.regs - del;
  }

  lemma SimpleClean(mc: Machine, ins: Instr, fr: Frame, depth: nat)
    requires Clean(fr.mem, depth + 1) && ExecSimple(mc, ins, fr, depth).Done?
    ensures Clean(ExecSimple(mc, ins, fr, depth).value.mem, depth + 1)
  {
  }

  // ---------- phis ----------

  lemma {:induction false} SourceAmong(operands: seq<Value>, from: Block)
    ensures PhiSource(operands, from).Some? ==> PhiSource(operands, from).value in operands
  {
    if |operands| >= 2 && operands[1] != Label(from) {
      SourceAmong(operands[2..], from);
    }
  }

  lemma {:induction false} EnterKept(phis: seq<Instr>, from: Block, before: Regs, regs: Regs, del: set<Value>)
    requires forall i :: 0 <= i < |phis| && phis[i].id !in del ==> forall op :: op in phis[i].operands ==> op !in del
    ensures EnterBlock(Without(phis, del), from, before - del, regs - del) == EnterBlock(phis, from, before, regs) - del
  {
    if |phis| > 0 {
      var x := PhiIn(before, phis[0], from);
      var next := SetVal(regs, phis[0].id, x);
      SetDrop(regs, del, phis[0].id, x);
      EnterKept(phis[1..], from, before, next, del);
      if phis[0].id !in del {
        SourceAmong(phis[0].operands, from);
        match PhiSource(phis[0].operands, from) {
          case Some(v) => LookupDrop(before, del, v);
          case None =>
        }
        assert Without(phis, del)[1..] == Without(phis[1..], del);
      }
    }
  }

  /** The phis at the head are the head of the shorter list too, when nothing
      after them is a phi. */
  lemma {:induction false} HeadKept(list: seq<Instr>, n: nat)
    requires n < |list| && (forall i :: 0 <= i < n ==> list[i].IsPhi()) && !list[n].IsPhi()
    ensures PhiCount(list) == n
  {
    if n > 0 { HeadKept(list[1..], n - 1); }
  }

  // ---------- lists, blocks and calls ----------

  /** What sweeping function f relies on at one of its instructions. */
  ghost predicate Sweepable(pr: seq<Proc>, isPure: map<nat, bool>, ins: Instr, del: set<Value>) {
    && (ins.op.OpCall? ==> |ins.operands| > 0 && ins.operands[0].Func? && ins.operands[0].fid < |pr|)
    && (ins.id in del ==> !IsCritical(isPure, ins))
    && (ins.id !in del ==> forall op :: op in ins.operands ==> op !in del)
  }

  lemma SweepableFacts(pr: seq<Proc>, isPure: map<nat, bool>, f: nat, b: Block, i: nat)
    requires Ok(pr) && f < |pr| && b in pr[f].code && i < |pr[f].code[b]|
    ensures Sweepable(pr, isPure, pr[f].code[b][i], Dead(pr[f], isPure))
  {
    hide Needed;
    var p := pr[f];
    assert p.Ok(|pr|);
    var ins := p.code[b][i];
    assert p.InstrOk(|pr|, p.code[b][i]);
    if ins.id in Dead(p, isPure) {
      if IsCritical(isPure, ins) { NeededCritical(p, isPure, ins.id); }
    } else {
      KeptOperands(p, isPure, |pr|, b, ins);
    }
  }

  lemma {:induction false} OneKept(pr: seq<Proc>, isPure: map<nat, bool>, swept: seq<Proc>, mc: Machine, ins: Instr,
          fr: Frame, del: set<Value>, depth: nat, fuel: nat)
    requires Analysed(pr, isPure) && AllSwept(pr, isPure, swept) && Sweepable(pr, isPure, ins, del)
    requires Clean(fr.mem, depth + 1) && ExecOne(pr, mc, ins, fr, depth, fuel).Done?
    ensures var to := ExecOne(pr, mc, ins, fr, depth, fuel).value;
      && Clean(to.mem, depth + 1)
      && (ins.id in del ==> Drop(to, del) == Drop(fr, del))
      && (ins.id !in del ==> ExecOne(swept, mc, ins, Drop(fr, del), depth, fuel) == Done(Drop(to, del)))
    decreases fuel, 0, 0
  {
    hide Analysed, AllSwept, ExecSimple, CallProc, Clean;
    if ins.op.OpCall? {
      var g := ins.operands[0].fid;
      var args := LookupAll(fr.regs, ins.operands[1..]).value;
      var r := CallProc(pr, mc, g, args, depth + 1, fr.mem, fr.out, fuel - 1).value;
      EliminationPreservesRuns(pr, isPure, swept, mc, g, args, depth + 1, fr.mem, fr.out, fuel - 1);
      SetDrop(fr.regs, del, ins.id, r.result);
      if ins.id in del {
        assert g in isPure && isPure[g];
        PureLeaves(pr, isPure, mc, g, args, depth + 1, fr.mem, fr.out, fuel - 1);
      } else {
        LookupAllDrop(fr.regs, del, ins.operands[1..]);
      }
    } else {
      SimpleClean(mc, ins, fr, depth);
      if ins.id in del {
        SimpleDead(mc, ins, fr, del, depth);
      } else {
        SimpleKept(mc, ins, fr, del, depth);
      }
    }
  }

  lemma DoneIsNoPhi(pr: seq<Proc>, mc: Machine, ins: Instr, fr: Frame, depth: nat, fuel: nat)
    requires ExecOne(pr, mc, ins, fr, depth, fuel).Done?
    ensures !ins.IsPhi()
  {
  }

  lemma PureLeaves(pr: seq<Proc>, isPure: map<nat, bool>, mc: Machine, g: nat, args: seq<Val>, depth: nat, mem: Mem,
          out: Out, fuel: nat)
    requires Analysed(pr, isPure) && g in isPure && isPure[g] && Clean(mem, depth)
    requires CallProc(pr, mc, g, args, depth, mem, out, fuel).Done?
    ensures CallProc(pr, mc, g, args, depth, mem, out, fuel).value.mem == mem
    ensures CallProc(pr, mc, g, args, depth, mem, out, fuel).value.out == out
  {
    hide CallProc, Clean;
    PureIsPure(pr, mc, isPure, g, args, depth, World(mem, out), World(mem, out), fuel);
  }

  lemma {:induction false} ListKept(pr: seq<Proc>, isPure: map<nat, bool>, swept: seq<Proc>, mc: Machine,
          list: seq<Instr>, fr: Frame, del: set<Value>, depth: nat, fuel: nat)
    requires Analysed(pr, isPure) && AllSwept(pr, isPure, swept)
    requires forall i :: 0 <= i < |list| ==> Sweepable(pr, isPure, list[i], del)
    requires Clean(fr.mem, depth + 1) && ExecList(pr, mc, list, fr, depth, fuel).Done?
    ensures var to := ExecList(pr, mc, list, fr, depth, fuel).value;
      && Clean(to.mem, depth + 1)
      && ExecList(swept, mc, Without(list, del), Drop(fr, del), depth, fuel) == Done(Drop(to, del))
    ensures forall ins :: ins in list ==> !ins.IsPhi()
    decreases fuel, 0, |list|
  {
    hide Analysed, AllSwept, Sweepable, ExecOne, Clean;
    if |list| > 0 {
      OneKept(pr, isPure, swept, mc, list[0], fr, del, depth, fuel);
      var next := ExecOne(pr, mc, list[0], fr, depth, fuel).value;
      ListKept(pr, isPure, swept, mc, list[1..], next, del, depth, fuel);
      DoneIsNoPhi(pr, mc, list[0], fr, depth, fuel);
      if list[0].id !in del {
        assert Without(list, del)[1..] == Without(list[1..], del);
      }
    }
  }

  lemma TerminatorKept(isPure: map<nat, bool>, t: Instr, regs: Regs, del: set<Value>)
    requires t.id !in del && forall op :: op in t.operands ==> op !in del
    ensures Branch(t, regs - del) == Branch(t, regs)
  {
    if |t.operands| > 0 { LookupDrop(regs, del, t.operands[0]); }
  }

  lemma WithoutParts(phis: seq<Instr>, body: seq<Instr>, t: Instr, del: set<Value>)
    requires t.id !in del
    ensures Without(phis + (body + [t]), del) == Without(phis, del) + (Without(body, del) + [t])
  {
    hide Without;
    WithoutConcat(phis, body + [t], del);
    WithoutConcat(body, [t], del);
    WithoutAll([t], del);
  }

  lemma PartsOf<T>(kept: seq<T>, a: seq<T>, b: seq<T>, t: T)
    requires kept == a + (b + [t])
    ensures kept[..|a|] == a && kept[|a|..|kept| - 1] == b && kept[|kept| - 1] == t && |kept| == |a| + |b| + 1
  {
  }

  /** A list of phis, other instructions and a terminator splits where the phis end. */
  lemma SplitAt(kept: seq<Instr>, a: seq<Instr>, b: seq<Instr>, t: Instr)
    requires kept == a + (b + [t]) && t.IsTerminator()
    requires (forall i :: 0 <= i < |a| ==> a[i].IsPhi()) && (forall i :: 0 <= i < |b| ==> !b[i].IsPhi())
    ensures PhiCount(kept) == |a|
  {
    hide PhiCount;
    PartsOf(kept, a, b, t);
    forall i | 0 <= i < |a| ensures kept[i].IsPhi() { assert kept[i] == a[i]; }
    assert kept[|a|] == (b + [t])[0];
    HeadKept(kept, |a|);
  }

  lemma PhisStay(phis: seq<Instr>, del: set<Value>)
    requires forall i :: 0 <= i < |phis| ==> phis[i].IsPhi()
    ensures forall i :: 0 <= i < |Without(phis, del)| ==> Without(phis, del)[i].IsPhi()
  {
    var kp := Without(phis, del);
    forall i | 0 <= i < |kp| ensures kp[i].IsPhi() { assert kp[i] in phis; }
  }

  lemma OthersStay(body: seq<Instr>, del: set<Value>)
    requires forall ins :: ins in body ==> !ins.IsPhi()
    ensures forall i :: 0 <= i < |Without(body, del)| ==> !Without(body, del)[i].IsPhi()
  {
    var kb := Without(body, del);
    forall i | 0 <= i < |kb| ensures !kb[i].IsPhi() { assert kb[i] in body; }
  }

  /** The shape of a block's list without its dead instructions. */
  lemma BlockKept(list: seq<Instr>, n: nat, del: set<Value>)
    requires n < |list| && (forall i :: 0 <= i < n ==> list[i].IsPhi())
    requires forall ins :: ins in list[n..|list| - 1] ==> !ins.IsPhi()
    requires list[|list| - 1].id !in del && list[|list| - 1].IsTerminator()
    ensures var kept := Without(list, del);
      var k := PhiCount(kept);
      && k < |kept|
      && kept[..k] == Without(list[..n], del)
      && kept[k..|kept| - 1] == Without(list[n..|list| - 1], del)
      && kept[|kept| - 1] == list[|list| - 1]
  {
    hide *;
    var phis, body, t := list[..n], list[n..|list| - 1], list[|list| - 1];
    assert list == phis + (body + [t]);
    WithoutParts(phis, body, t, del);
    PhisStay(phis, del);
    OthersStay(body, del);
    SplitAt(Without(list, del), Without(phis, del), Without(body, del), t);
    PartsOf(Without(list, del), Without(phis, del), Without(body, del), t);
  }

  /** One block: its head, its body and the choice of its terminator. */
  lemma {:induction false} BodyKept(pr: seq<Proc>, isPure: map<nat, bool>, swept: seq<Proc>, mc: Machine,
          list: seq<Instr>, from: Block, fr: Frame, del: set<Value>, depth: nat, fuel: nat)
    requires Analysed(pr, isPure) && AllSwept(pr, isPure, swept)
    requires forall i :: 0 <= i < |list| ==> Sweepable(pr, isPure, list[i], del)
    requires Clean(fr.mem, depth + 1) && PhiCount(list) < |list|
    requires ExecList(pr, mc, list[PhiCount(list)..|list| - 1],
        fr.(regs := EnterBlock(list[..PhiCount(list)], from, fr.regs, fr.regs)), depth, fuel).Done?
    requires list[|list| - 1].IsTerminator()
    ensures var n := PhiCount(list);
      var to := ExecList(pr, mc, list[n..|list| - 1], fr.(regs := EnterBlock(list[..n], from, fr.regs, fr.regs)),
          depth, fuel).value;
      var kept := Without(list, del);
      var k := PhiCount(kept);
      var regs := fr.regs - del;
      && Clean(to.mem, depth + 1)
      && k < |kept|
      && ExecList(swept, mc, kept[k..|kept| - 1], Frame(EnterBlock(kept[..k], from, regs, regs), fr.mem, fr.out),
          depth, fuel) == Done(Drop(to, del))
      && Branch(kept[|kept| - 1], to.regs - del) == Branch(list[|list| - 1], to.regs)
    decreases fuel, 1, 0
  {
    hide Analysed, AllSwept, ExecList, EnterBlock, Clean, Branch, Without, PhiCount;
    var n := PhiCount(list);
    var t := list[|list| - 1];
    var a := fr.(regs := EnterBlock(list[..n], from, fr.regs, fr.regs));
    ListKept(pr, isPure, swept, mc, list[n..|list| - 1], a, del, depth, fuel);
    var to := ExecList(pr, mc, list[n..|list| - 1], a, depth, fuel).value;
    PhisDrop(pr, isPure, list, n, from, fr.regs, del);
    BlockKept(list, n, del);
    TerminatorKept(isPure, t, to.regs, del);
  }

  lemma JumpsOnTerminator(t: Instr, regs: Regs)
    requires !Branch(t, regs).Bad?
    ensures t.IsTerminator()
  {
  }

  lemma SweptBlock(pr: seq<Proc>, isPure: map<nat, bool>, swept: seq<Proc>, f: nat, b: Block)
    requires AllSwept(pr, isPure, swept) && f < |pr| && b in pr[f].code
    ensures b in swept[f].code && swept[f].code[b] == Without(pr[f].code[b], Dead(pr[f], isPure))
  {
  }

  lemma {:induction false} BlocksKept(pr: seq<Proc>, isPure: map<nat, bool>, swept: seq<Proc>, mc: Machine, f: nat,
          b: Block, from: Block, fr: Frame, depth: nat, fuel: nat)
    requires Analysed(pr, isPure) && AllSwept(pr, isPure, swept) && f < |pr|
    requires Clean(fr.mem, depth + 1) && RunBlocks(pr, mc, pr[f].code, b, from, fr, depth, fuel).Done?
    ensures RunBlocks(swept, mc, swept[f].code, b, from, Drop(fr, Dead(pr[f], isPure)), depth, fuel)
         == RunBlocks(pr, mc, pr[f].code, b, from, fr, depth, fuel)
    decreases fuel, 1, 1
  {
    hide Analysed, AllSwept, ExecList, EnterBlock, Dead, Sweepable, Clean, Branch, Without, PhiCount, Trim;
    var p := pr[f];
    var del := Dead(p, isPure);
    var list := p.code[b];
    var n := PhiCount(list);
    var to := ExecList(pr, mc, list[n..|list| - 1], fr.(regs := EnterBlock(list[..n], from, fr.regs, fr.regs)), depth,
        fuel).value;
    AnalysedOk(pr, isPure);
    forall i | 0 <= i < |list| ensures Sweepable(pr, isPure, list[i], del) { SweepableFacts(pr, isPure, f, b, i); }
    JumpsOnTerminator(list[|list| - 1], to.regs);
    BodyKept(pr, isPure, swept, mc, list, from, fr, del, depth, fuel);
    SweptBlock(pr, isPure, swept, f, b);
    match Branch(list[|list| - 1], to.regs)
    case JumpTo(s) => BlocksKept(pr, isPure, swept, mc, f, s, b, to, depth, fuel - 1);
    case _ =>
  }

  lemma AnalysedOk(pr: seq<Proc>, isPure: map<nat, bool>)
    requires Analysed(pr, isPure)
    ensures Ok(pr)
  {
  }

  lemma PhisDrop(pr: seq<Proc>, isPure: map<nat, bool>, list: seq<Instr>, n: nat, from: Block, regs: Regs,
          del: set<Value>)
    requires n <= |list| && forall i :: 0 <= i < |list| ==> Sweepable(pr, isPure, list[i], del)
    ensures EnterBlock(Without(list[..n], del), from, regs - del, regs - del)
        == EnterBlock(list[..n], from, regs, regs) - del
  {
    EnterKept(list[..n], from, regs, regs, del);
  }

  /** A call that finishes before the pass finishes after it in the same way. */
  lemma {:induction false} EliminationPreservesRuns(pr: seq<Proc>, isPure: map<nat, bool>, swept: seq<Proc>,
          mc: Machine, f: nat, args: seq<Val>, depth: nat, mem: Mem, out: Out, fuel: nat)
    requires Analysed(pr, isPure) && AllSwept(pr, isPure, swept) && Clean(mem, depth)
    requires CallProc(pr, mc, f, args, depth, mem, out, fuel).Done?
    ensures CallProc(swept, mc, f, args, depth, mem, out, fuel) == CallProc(pr, mc, f, args, depth, mem, out, fuel)
    ensures Clean(CallProc(pr, mc, f, args, depth, mem, out, fuel).value.mem, depth)
    decreases fuel, 2
  {
    hide Analysed, RunBlocks, Dead;
    if !pr[f].IsDeclaration() {
      var fr := Frame(Bind(args, |args|), mem, out);
      var b := pr[f].g.blocks[0];
      BlocksKept(pr, isPure, swept, mc, f, b, NULL, fr, depth, fuel);
      BindArguments(args, |args|);
      DeadDefs(pr, isPure, f);
      assert fr.regs - Dead(pr[f], isPure) == fr.regs;
      EndClean(pr, mc, pr[f].code, b, NULL, fr, depth, fuel);
    }
  }

  lemma DeadDefs(pr: seq<Proc>, isPure: map<nat, bool>, f: nat)
    requires Analysed(pr, isPure) && f < |pr|
    ensures forall v :: v in Dead(pr[f], isPure) ==> v.IsInstruction()
  {
    hide Needed;
    assert pr[f].Ok(|pr|);
  }

  lemma {:induction false} EndClean(pr: seq<Proc>, mc: Machine, code: map<Block, seq<Instr>>, b: Block, from: Block,
          fr: Frame, depth: nat, fuel: nat)
    requires RunBlocks(pr, mc, code, b, from, fr, depth, fuel).Done?
    ensures Clean(RunBlocks(pr, mc, code, b, from, fr, depth, fuel).value.mem, depth)
    decreases fuel
  {
    hide ExecList, EnterBlock;
    var list := code[b];
    var n := PhiCount(list);
    var to := ExecList(pr, mc, list[n..|list| - 1], fr.(regs := EnterBlock(list[..n], from, fr.regs, fr.regs)), depth,
        fuel).value;
    match Branch(list[|list| - 1], to.regs)
    case JumpTo(s) => EndClean(pr, mc, code, s, b, to, depth, fuel - 1);
    case _ =>
  }
}
