/** A call of a function the purity analysis leaves pure depends on its arguments
    only and changes nothing that existed before it. */
module Purity {
  import opened Cfg
  import opened Ir
  import opened Exec
  import opened Program
  import opened CallGraph
  import opened Addresses
  import FuncInfo

  // ---------- addresses ----------

  /** What the instruction may take its address from: the base of a gep, any
      incoming value of a phi. */
  ghost predicate TakesFrom(ins: Instr, w: Value) {
    || (ins.op.OpGep? && |ins.operands| > 0 && ins.operands[0] == w)
    || (ins.op.OpPhi? && exists q :: PhiSource(ins.operands, q) == Some(w))
  }

  predicate AddressOp(ins: Instr) {
    ins.op.OpAlloca? || (ins.op.OpGep? && |ins.operands| > 0) || ins.op.OpPhi?
  }

  /** Allocas, and geps and phis that take their address from the set only. */
  ghost predicate LocalSet(defs: map<Value, Instr>, s: set<Value>) {
    forall v :: v in s ==> v in defs && AddressOp(defs[v]) && forall w :: TakesFrom(defs[v], w) ==> w in s
  }

  /** The values that can only be addresses in the frame: the largest such set. */
  ghost function LocalValues(defs: map<Value, Instr>): set<Value> {
    set v | v in defs && exists s: set<Value> :: LocalSet(defs, s) && v in s
  }

  lemma LocalClosed(defs: map<Value, Instr>)
    ensures LocalSet(defs, LocalValues(defs))
  {
    forall v | v in LocalValues(defs)
      ensures v in defs && AddressOp(defs[v]) && forall w :: TakesFrom(defs[v], w) ==> w in LocalValues(defs)
    {
      var s: set<Value> :| LocalSet(defs, s) && v in s;
      forall w | TakesFrom(defs[v], w) ensures w in LocalValues(defs) { assert w in s; }
    }
  }

  /** Each value takes its address from the next. */
  ghost predicate OriginChain(defs: map<Value, Instr>, c: seq<Value>) {
    && |c| > 0
    && (|c| > 1 ==> c[0] in defs && TakesFrom(defs[c[0]], c[1]) && OriginChain(defs, c[1..]))
  }

  lemma {:induction false} ChainStaysLocal(defs: map<Value, Instr>, c: seq<Value>)
    requires OriginChain(defs, c) && c[0] in LocalValues(defs)
    ensures c[|c| - 1] in LocalValues(defs)
    decreases |c|
  {
    hide LocalValues, TakesFrom, AddressOp;
    LocalClosed(defs);
    if |c| > 1 { ChainStaysLocal(defs, c[1..]); }
  }

  /** Every chain of origins ends in an alloca, or goes on through a gep or phi. */
  ghost predicate AllOriginsLocal(defs: map<Value, Instr>, v: Value) {
    forall c :: OriginChain(defs, c) && c[0] == v ==> c[|c| - 1] in defs && AddressOp(defs[c[|c| - 1]])
  }

  lemma OriginNext(defs: map<Value, Instr>, v: Value, w: Value)
    requires v in defs && TakesFrom(defs[v], w) && AllOriginsLocal(defs, v)
    ensures AllOriginsLocal(defs, w)
  {
    hide TakesFrom, AddressOp;
    forall c | OriginChain(defs, c) && c[0] == w ensures c[|c| - 1] in defs && AddressOp(defs[c[|c| - 1]]) {
      var longer := [v] + c;
      assert longer[1..] == c;
      assert OriginChain(defs, longer) && longer[0] == v;
    }
  }

  lemma OriginHere(defs: map<Value, Instr>, v: Value)
    requires AllOriginsLocal(defs, v)
    ensures v in defs && AddressOp(defs[v])
  {
    assert OriginChain(defs, [v]) && [v][0] == v;
  }

  /** A value is local exactly when every chain of origins stays among allocas, geps
      and phis; get_first_addr follows only the first. */
  lemma LocalIff(defs: map<Value, Instr>, v: Value)
    ensures v in LocalValues(defs) <==> AllOriginsLocal(defs, v)
  {
    if v in LocalValues(defs) {
      forall c | OriginChain(defs, c) && c[0] == v ensures c[|c| - 1] in defs && AddressOp(defs[c[|c| - 1]]) {
        ChainStaysLocal(defs, c);
        LocalClosed(defs);
      }
    }
    if AllOriginsLocal(defs, v) {
      hide AllOriginsLocal, TakesFrom, AddressOp;
      var s := set x | x in defs && AllOriginsLocal(defs, x);
      forall x | x in s ensures x in defs && AddressOp(defs[x]) && forall w :: TakesFrom(defs[x], w) ==> w in s {
        OriginHere(defs, x);
        forall w | TakesFrom(defs[x], w) ensures w in s {
          OriginNext(defs, x, w);
          OriginHere(defs, w);
        }
      }
      OriginHere(defs, v);
      assert LocalSet(defs, s) && v in s;
    }
  }

  /** The analysis is right about the address: if it calls it local, it is. */
  ghost predicate AddressRight(p: Proc, v: Value) {
    IsLocal(p, v) ==> v in LocalValues(p.defs)
  }

  ghost predicate AccessRight(p: Proc, ins: Instr) {
    && (ins.op.OpLoad? && |ins.operands| == 1 ==> AddressRight(p, ins.operands[0]))
    && (ins.op.OpStore? && |ins.operands| == 2 ==> AddressRight(p, ins.operands[1]))
  }

  ghost predicate AddressesRight(p: Proc) {
    forall b, i :: b in p.code && 0 <= i < |p.code[b]| ==> AccessRight(p, p.code[b][i])
  }

  // ---------- addresses through geps only ----------

  /** At most n geps lead from v back to an alloca, a load or a value that no
      instruction computes. */
  predicate Plain(defs: map<Value, Instr>, v: Value, n: nat)
    decreases n
  {
    || v !in defs
    || defs[v].op.OpAlloca?
    || defs[v].op.OpLoad?
    || (n > 0 && defs[v].op.OpGep? && |defs[v].operands| > 0 && Plain(defs, defs[v].operands[0], n - 1))
  }

  /** At most n steps lead from v by geps back to an alloca. */
  predicate FromAlloca(defs: map<Value, Instr>, v: Value, n: nat)
    decreases n
  {
    && n > 0
    && v in defs
    && (|| defs[v].op.OpAlloca?
        || (defs[v].op.OpGep? && |defs[v].operands| > 0 && FromAlloca(defs, defs[v].operands[0], n - 1)))
  }

  lemma {:induction false} FromAllocaLeads(p: Proc, v: Value, n: nat)
    requires FromAlloca(p.defs, v, n)
    ensures Leads(p, v, n)
    decreases n
  {
    if !p.defs[v].op.OpAlloca? { FromAllocaLeads(p, p.defs[v].operands[0], n - 1); }
  }

  /** An address that geps lead back to an alloca is called local. */
  lemma GepsAreLocal(p: Proc, v: Value, n: nat)
    requires NamesInstructions(p) && FromAlloca(p.defs, v, n)
    ensures IsLocal(p, v)
  {
    FromAllocaLeads(p, v, n);
    assert LeadsToAlloca(p, v);
    IsLocalIff(p, v);
  }

  lemma {:induction false} PlainLeads(p: Proc, v: Value, n: nat, m: nat)
    requires Plain(p.defs, v, n) && Leads(p, v, m)
    ensures FromAlloca(p.defs, v, m)
    decreases m
  {
    if p.defs[v].op.OpGep? { PlainLeads(p, p.defs[v].operands[0], n - 1, m - 1); }
  }

  lemma {:induction false} PlainLocal(defs: map<Value, Instr>, v: Value, n: nat)
    requires Plain(defs, v, n) && v in LocalValues(defs)
    ensures FromAlloca(defs, v, n + 1)
    decreases n
  {
    hide LocalValues;
    LocalClosed(defs);
    if defs[v].op.OpGep? {
      assert TakesFrom(defs[v], defs[v].operands[0]);
      PlainLocal(defs, defs[v].operands[0], n - 1);
    }
  }

  lemma FromAllocaIsLocal(defs: map<Value, Instr>, v: Value, n: nat)
    requires FromAlloca(defs, v, n)
    ensures v in LocalValues(defs)
  {
    var s := set x | x in defs && exists k: nat :: FromAlloca(defs, x, k);
    forall x | x in s ensures AddressOp(defs[x]) && forall w :: TakesFrom(defs[x], w) ==> w in s {
      var k: nat :| FromAlloca(defs, x, k);
      forall w | TakesFrom(defs[x], w) ensures w in s { assert FromAlloca(defs, w, k - 1); }
    }
    assert LocalSet(defs, s);
  }

  /** About such an address the analysis is always right, in both directions. */
  lemma PlainIff(p: Proc, v: Value, n: nat)
    requires NamesInstructions(p) && Plain(p.defs, v, n)
    ensures IsLocal(p, v) <==> v in LocalValues(p.defs)
    ensures IsLocal(p, v) <==> exists m: nat :: FromAlloca(p.defs, v, m)
  {
    hide LocalValues, IsLocal;
    IsLocalIff(p, v);
    if IsLocal(p, v) {
      var m: nat :| Leads(p, v, m);
      PlainLeads(p, v, n, m);
      assert FromAlloca(p.defs, v, m);
    }
    if v in LocalValues(p.defs) {
      PlainLocal(p.defs, v, n);
      var k := n + 1;
      assert FromAlloca(p.defs, v, k);
    }
    if m: nat :| FromAlloca(p.defs, v, m) {
      FromAllocaIsLocal(p.defs, v, m);
      GepsAreLocal(p, v, m);
    }
  }

  // ---------- addresses at run time ----------

  /** The registers of local values point into the current frame. */
  ghost predicate Rooted(p: Proc, regs: Regs, depth: nat) {
    forall v :: v in regs && v in LocalValues(p.defs) ==> InFrame(regs[v], depth)
  }

  predicate InFrame(x: Val, depth: nat) {
    x.VPtr? && x.obj.OLocal? && x.obj.depth == depth
  }

  lemma LocalInFrame(p: Proc, functions: nat, regs: Regs, depth: nat, v: Value)
    requires p.Ok(functions) && Rooted(p, regs, depth) && v in LocalValues(p.defs)
    ensures Lookup(regs, v).Some? ==> InFrame(Lookup(regs, v).value, depth)
  {
    assert v.IsInstruction();
  }

  // ---------- two runs side by side ----------

  /** The memory of the frames at this depth and deeper. */
  function Above(mem: Mem, depth: nat): Mem {
    map c | c in mem && c.obj.OLocal? && c.obj.depth >= depth :: mem[c]
  }

  datatype World = World(mem: Mem, out: Out)

  /** Equal registers and frame memory, over two worlds that stay as they are. */
  ghost predicate Twin(a: Frame, b: Frame, wa: World, wb: World, depth: nat) {
    && a.regs == b.regs
    && Above(a.mem, depth) == Above(b.mem, depth)
    && Over(a, wa, depth)
    && Over(b, wb, depth)
  }

  ghost predicate Over(a: Frame, w: World, depth: nat) {
    && a.out == w.out
    && Trim(a.mem, depth) == w.mem
    && Clean(a.mem, depth + 1)
  }

  ghost predicate TwinResult(p: Proc, a: Result<Frame>, b: Result<Frame>, wa: World, wb: World, depth: nat) {
    match (a, b)
    case (Done(x), Done(y)) => Twin(x, y, wa, wb, depth) && Rooted(p, x.regs, depth)
    case (Fails, Fails) => true
    case (OutOfFuel, OutOfFuel) => true
    case _ => false
  }

  /** Both calls end alike, each with its own world untouched and the same result. */
  ghost predicate SameCall(a: Result<Ended>, b: Result<Ended>, wa: World, wb: World) {
    match (a, b)
    case (Done(x), Done(y)) => x == Ended(x.result, wa.mem, wa.out) && y == Ended(x.result, wb.mem, wb.out)
    case (Fails, Fails) => true
    case (OutOfFuel, OutOfFuel) => true
    case _ => false
  }

  /** The function reaches no side effect. */
  ghost predicate Quiet(pr: seq<Proc>, f: nat) {
    && f < |pr|
    && !CallsImpure(pr, f)
  }

  /** In functions that reach no side effect, what the analysis calls local is. */
  ghost predicate AllRight(pr: seq<Proc>) {
    forall f :: 0 <= f < |pr| && !CallsImpure(pr, f) ==> AddressesRight(pr[f])
  }

  /** What a quiet function's instruction may do. */
  ghost predicate Harmless(pr: seq<Proc>, p: Proc, ins: Instr) {
    && p.InstrOk(|pr|, ins)
    && AccessRight(p, ins)
    && !IsSideEffect(p, ins)
    && (ins.op.OpCall? ==> Quiet(pr, ins.operands[0].fid))
  }

  lemma QuietHarmless(pr: seq<Proc>, f: nat, b: Block, i: nat)
    requires Ok(pr) && AllRight(pr) && Quiet(pr, f) && b in pr[f].code && i < |pr[f].code[b]|
    ensures Harmless(pr, pr[f], pr[f].code[b][i])
  {
    var p := pr[f];
    var ins := p.code[b][i];
    assert p.Ok(|pr|) && AddressesRight(p);
    if TriviallyImpure(p) { CallsImpureItself(pr, f); }
    if ins.op.OpCall? {
      var g := ins.operands[0].fid;
      assert Func(g) in p.code[b][i].operands;
      if CallsImpure(pr, g) { CallsImpureThrough(pr, f, g); }
    }
  }

  // ---------- one instruction ----------

  lemma RootedSet(p: Proc, regs: Regs, depth: nat, v: Value, x: Val)
    requires Rooted(p, regs, depth) && (v in LocalValues(p.defs) ==> InFrame(x, depth))
    ensures Rooted(p, regs[v := x], depth)
  {
    hide LocalValues;
  }

  /** Only allocas, geps and phis are local. */
  lemma NotLocal(p: Proc, v: Value)
    requires v in p.defs && !AddressOp(p.defs[v])
    ensures v !in LocalValues(p.defs)
  {
    hide LocalValues;
    LocalClosed(p.defs);
  }

  /** A gep stays in the object of its base. */
  lemma GepRooted(p: Proc, functions: nat, ins: Instr, regs: Regs, depth: nat, k: int)
    requires p.Ok(functions) && p.InstrOk(functions, ins) && Rooted(p, regs, depth)
    requires ins.op.OpGep? && |ins.operands| > 0 && Lookup(regs, ins.operands[0]).Some?
        && Lookup(regs, ins.operands[0]).value.VPtr?
    ensures var base := Lookup(regs, ins.operands[0]).value; Rooted(p, regs[ins.id := VPtr(base.obj, k)], depth)
  {
    hide LocalValues, Rooted;
    var base := Lookup(regs, ins.operands[0]).value;
    var x := VPtr(base.obj, k);
    LocalClosed(p.defs);
    if ins.id in LocalValues(p.defs) {
      assert TakesFrom(ins, ins.operands[0]);
      LocalInFrame(p, functions, regs, depth, ins.operands[0]);
    }
    RootedSet(p, regs, depth, ins.id, x);
  }

  lemma StoreOver(a: Frame, w: World, depth: nat, c: Cell, x: Val)
    requires Over(a, w, depth) && c.obj.OLocal? && c.obj.depth == depth
    ensures Over(a.(mem := a.mem[c := x]), w, depth)
    ensures Above(a.mem[c := x], depth) == Above(a.mem, depth)[c := x]
  {
    assert Trim(a.mem[c := x], depth) == Trim(a.mem, depth);
  }

  lemma StoreTwin(a: Frame, b: Frame, wa: World, wb: World, depth: nat, c: Cell, x: Val)
    requires Twin(a, b, wa, wb, depth) && c.obj.OLocal? && c.obj.depth == depth
    ensures Twin(a.(mem := a.mem[c := x]), b.(mem := b.mem[c := x]), wa, wb, depth)
  {
    hide Over, Above;
    StoreOver(a, wa, depth, c, x);
    StoreOver(b, wb, depth, c, x);
  }

  lemma SeesAlike(a: Frame, b: Frame, wa: World, wb: World, depth: nat, c: Cell)
    requires Twin(a, b, wa, wb, depth) && c.obj.OLocal? && c.obj.depth == depth
    ensures c in a.mem <==> c in b.mem
    ensures c in a.mem ==> a.mem[c] == b.mem[c]
  {
    assert c in a.mem <==> c in Above(a.mem, depth);
    assert c in b.mem <==> c in Above(b.mem, depth);
    if c in a.mem { assert a.mem[c] == Above(a.mem, depth)[c] == b.mem[c]; }
  }

  lemma RegsTwin(a: Frame, b: Frame, wa: World, wb: World, depth: nat, regs: Regs)
    requires Twin(a, b, wa, wb, depth)
    ensures Twin(a.(regs := regs), b.(regs := regs), wa, wb, depth)
  {
  }

  lemma TwinRegs(a: Frame, b: Frame, wa: World, wb: World, depth: nat)
    requires Twin(a, b, wa, wb, depth)
    ensures a.regs == b.regs
  {
  }

  lemma ProcOk(pr: seq<Proc>, f: nat)
    requires Ok(pr) && f < |pr|
    ensures pr[f].Ok(|pr|)
  {
  }

  lemma HarmlessOk(pr: seq<Proc>, p: Proc, ins: Instr)
    requires Harmless(pr, p, ins)
    ensures p.InstrOk(|pr|, ins)
  {
  }

  lemma LoadTwin(pr: seq<Proc>, mc: Machine, p: Proc, ins: Instr, a: Frame, b: Frame, wa: World, wb: World, depth: nat)
    requires p.Ok(|pr|) && Harmless(pr, p, ins) && ins.op.OpLoad?
    requires Twin(a, b, wa, wb, depth) && Rooted(p, a.regs, depth)
    ensures TwinResult(p, ExecSimple(mc, ins, a, depth), ExecSimple(mc, ins, b, depth), wa, wb, depth)
  {
    hide Rooted, IsLocal, FirstAddr, Twin, Ok, LocalValues;
    TwinRegs(a, b, wa, wb, depth);
    NotLocal(p, ins.id);
    LocalInFrame(p, |pr|, a.regs, depth, ins.operands[0]);
    match Lookup(a.regs, ins.operands[0])
    case Some(VPtr(o, i)) =>
      SeesAlike(a, b, wa, wb, depth, Cell(o, i));
      if Cell(o, i) in a.mem {
        RegsTwin(a, b, wa, wb, depth, a.regs[ins.id := a.mem[Cell(o, i)]]);
        RootedSet(p, a.regs, depth, ins.id, a.mem[Cell(o, i)]);
      }
    case _ =>
  }

  lemma SimpleTwin(pr: seq<Proc>, mc: Machine, p: Proc, ins: Instr, a: Frame, b: Frame, wa: World, wb: World,
          depth: nat)
    requires p.Ok(|pr|) && Harmless(pr, p, ins)
    requires Twin(a, b, wa, wb, depth) && Rooted(p, a.regs, depth)
    ensures TwinResult(p, ExecSimple(mc, ins, a, depth), ExecSimple(mc, ins, b, depth), wa, wb, depth)
  {
    hide Rooted, IsLocal, FirstAddr, Twin, LocalValues;
    TwinRegs(a, b, wa, wb, depth);
    match ins.op
    case OpAlloca =>
      RegsTwin(a, b, wa, wb, depth, a.regs[ins.id := VPtr(OLocal(depth, ins.id), 0)]);
      RootedSet(p, a.regs, depth, ins.id, VPtr(OLocal(depth, ins.id), 0));
    case OpLoad =>
      LoadTwin(pr, mc, p, ins, a, b, wa, wb, depth);
    case OpStore =>
      LocalInFrame(p, |pr|, a.regs, depth, ins.operands[1]);
      match (Lookup(a.regs, ins.operands[0]), Lookup(a.regs, ins.operands[1])) {
        case (Some(x), Some(VPtr(o, i))) => StoreTwin(a, b, wa, wb, depth, Cell(o, i), x);
        case _ =>
      }
    case OpGep =>
      if |ins.operands| > 0 {
        match (Lookup(a.regs, ins.operands[0]), LookupAll(a.regs, ins.operands[1..])) {
          case (Some(VPtr(o, i)), Some(xs)) =>
            match mc.gepIndex(ins.id, xs) {
              case Some(k) =>
                GepRooted(p, |pr|, ins, a.regs, depth, i + k);
                RegsTwin(a, b, wa, wb, depth, a.regs[ins.id := VPtr(o, i + k)]);
              case None =>
            }
          case _ =>
        }
      }
    case OpOther(_) =>
      match LookupAll(a.regs, ins.operands) {
        case Some(xs) =>
          match mc.alu(ins.op, ins.id, xs) {
            case Some(x) =>
              RegsTwin(a, b, wa, wb, depth, a.regs[ins.id := x]);
              NotLocal(p, ins.id);
              RootedSet(p, a.regs, depth, ins.id, x);
            case None =>
          }
        case None =>
      }
    case _ =>
  }

  // ---------- phis ----------

  /** A local phi takes an address of the frame on every edge. */
  lemma PhiRooted(p: Proc, functions: nat, phi: Instr, from: Block, before: Regs, depth: nat)
    requires p.Ok(functions) && p.InstrOk(functions, phi) && phi.IsPhi() && Rooted(p, before, depth)
        && PhiIn(before, phi, from).Some?
    ensures phi.id in LocalValues(p.defs) ==> InFrame(PhiIn(before, phi, from).value, depth)
  {
    hide LocalValues, Rooted;
    LocalClosed(p.defs);
    if phi.id in LocalValues(p.defs) {
      var w := PhiSource(phi.operands, from).value;
      assert TakesFrom(phi, w);
      LocalInFrame(p, functions, before, depth, w);
    }
  }

  lemma RootedDrop(p: Proc, regs: Regs, depth: nat, v: Value)
    requires Rooted(p, regs, depth)
    ensures Rooted(p, regs - {v}, depth)
  {
    hide LocalValues;
  }

  lemma {:induction false} EnterRooted(pr: seq<Proc>, p: Proc, phis: seq<Instr>, from: Block, before: Regs,
          regs: Regs, depth: nat)
    requires p.Ok(|pr|) && Rooted(p, before, depth) && Rooted(p, regs, depth)
    requires forall i :: 0 <= i < |phis| ==> phis[i].IsPhi() && p.InstrOk(|pr|, phis[i])
    ensures Rooted(p, EnterBlock(phis, from, before, regs), depth)
  {
    hide LocalValues, Rooted, Proc.Ok, Proc.InstrOk;
    if |phis| > 0 {
      assert p.InstrOk(|pr|, phis[0]);
      match PhiIn(before, phis[0], from)
      case Some(x) =>
        PhiRooted(p, |pr|, phis[0], from, before, depth);
        RootedSet(p, regs, depth, phis[0].id, x);
        EnterRooted(pr, p, phis[1..], from, before, regs[phis[0].id := x], depth);
      case None =>
        RootedDrop(p, regs, depth, phis[0].id);
        EnterRooted(pr, p, phis[1..], from, before, regs - {phis[0].id}, depth);
    }
  }

  // ---------- lists, blocks and calls ----------

  lemma {:induction false} ListTwin(pr: seq<Proc>, mc: Machine, p: Proc, list: seq<Instr>, a: Frame, b: Frame,
          wa: World, wb: World, depth: nat, fuel: nat)
    requires Ok(pr) && AllRight(pr) && p.Ok(|pr|)
    requires forall i :: 0 <= i < |list| ==> Harmless(pr, p, list[i])
    requires Twin(a, b, wa, wb, depth) && Rooted(p, a.regs, depth)
    ensures TwinResult(p, ExecList(pr, mc, list, a, depth, fuel), ExecList(pr, mc, list, b, depth, fuel), wa, wb, depth)
    decreases fuel, 0, |list|
  {
    hide Rooted, Twin, Harmless, Ok, AllRight, ExecOne;
    if |list| > 0 {
      assert Harmless(pr, p, list[0]);
      OneTwin(pr, mc, p, list[0], a, b, wa, wb, depth, fuel);
      match (ExecOne(pr, mc, list[0], a, depth, fuel), ExecOne(pr, mc, list[0], b, depth, fuel))
      case (Done(x), Done(y)) => ListTwin(pr, mc, p, list[1..], x, y, wa, wb, depth, fuel);
      case _ =>
    }
  }

  lemma {:induction false} OneTwin(pr: seq<Proc>, mc: Machine, p: Proc, ins: Instr, a: Frame, b: Frame, wa: World,
          wb: World, depth: nat, fuel: nat)
    requires Ok(pr) && AllRight(pr) && p.Ok(|pr|) && Harmless(pr, p, ins)
    requires Twin(a, b, wa, wb, depth) && Rooted(p, a.regs, depth)
    ensures TwinResult(p, ExecOne(pr, mc, ins, a, depth, fuel), ExecOne(pr, mc, ins, b, depth, fuel), wa, wb, depth)
    decreases fuel, 0, 0
  {
    hide Rooted, Ok, Proc.Ok, AllRight, ExecSimple, CallProc, Trim, Above, Clean, IsSideEffect, AccessRight,
        CallsImpure;
    if ins.op.OpCall? {
      match LookupAll(a.regs, ins.operands[1..])
      case None =>
      case Some(args) =>
        if fuel > 0 {
          var ra := CallProc(pr, mc, ins.operands[0].fid, args, depth + 1, a.mem, a.out, fuel - 1);
          var rb := CallProc(pr, mc, ins.operands[0].fid, args, depth + 1, b.mem, b.out, fuel - 1);
          PureCall(pr, mc, ins.operands[0].fid, args, depth + 1, World(a.mem, a.out), World(b.mem, b.out), fuel - 1);
          if ra.Done? {
            SetRooted(p, a.regs, depth, ins.id, ra.value.result);
          }
        }
    } else {
      SimpleTwin(pr, mc, p, ins, a, b, wa, wb, depth);
    }
  }

  lemma SetRooted(p: Proc, regs: Regs, depth: nat, v: Value, x: Option<Val>)
    requires Rooted(p, regs, depth) && v in p.defs && p.defs[v].op.OpCall?
    ensures Rooted(p, SetVal(regs, v, x), depth)
  {
    NotLocal(p, v);
  }

  lemma {:induction false} BlocksTwin(pr: seq<Proc>, mc: Machine, f: nat, blk: Block, from: Block, a: Frame, b: Frame,
          wa: World, wb: World, depth: nat, fuel: nat)
    requires Ok(pr) && AllRight(pr) && Quiet(pr, f)
    requires Twin(a, b, wa, wb, depth) && Rooted(pr[f], a.regs, depth)
    ensures SameCall(RunBlocks(pr, mc, pr[f].code, blk, from, a, depth, fuel),
        RunBlocks(pr, mc, pr[f].code, blk, from, b, depth, fuel), wa, wb)
    decreases fuel, 1
  {
    hide Rooted, AllRight, ExecList, EnterBlock, Harmless, Ok, Trim, Above, Clean, CallsImpure;
    var p := pr[f];
    ProcOk(pr, f);
    if fuel > 0 && blk in p.code && |p.code[blk]| > 0 {
      var list := p.code[blk];
      var n := PhiCount(list);
      if n < |list| {
        forall i | 0 <= i < |list| ensures Harmless(pr, p, list[i]) { QuietHarmless(pr, f, blk, i); }
        var regs := EnterBlock(list[..n], from, a.regs, a.regs);
        forall i | 0 <= i < n ensures p.InstrOk(|pr|, list[i]) { HarmlessOk(pr, p, list[i]); }
        EnterRooted(pr, p, list[..n], from, a.regs, a.regs, depth);
        var a1, b1 := a.(regs := regs), b.(regs := regs);
        ListTwin(pr, mc, p, list[n..|list| - 1], a1, b1, wa, wb, depth, fuel);
        match (ExecList(pr, mc, list[n..|list| - 1], a1, depth, fuel),
            ExecList(pr, mc, list[n..|list| - 1], b1, depth, fuel))
        case (Done(x), Done(y)) =>
          match Branch(list[|list| - 1], x.regs) {
            case JumpTo(s) => BlocksTwin(pr, mc, f, s, blk, x, y, wa, wb, depth, fuel - 1);
            case _ =>
          }
        case _ =>
      }
    }
  }

  /** Two calls of a pure function on the same arguments, in any two memories
      and after any two outputs: they end in the same way with the same result,
      and each leaves its own memory and output as they were. */
  lemma {:induction false} PureCall(pr: seq<Proc>, mc: Machine, f: nat, args: seq<Val>, depth: nat, wa: World,
          wb: World, fuel: nat)
    requires Ok(pr) && AllRight(pr) && Quiet(pr, f) && Clean(wa.mem, depth) && Clean(wb.mem, depth)
    ensures SameCall(
        CallProc(pr, mc, f, args, depth, wa.mem, wa.out, fuel),
        CallProc(pr, mc, f, args, depth, wb.mem, wb.out, fuel), wa, wb)
    decreases fuel, 2
  {
    hide RunBlocks, AllRight, Ok;
    if pr[f].IsDeclaration() {
      assert TriviallyImpure(pr[f]);
      CallsImpureItself(pr, f);
      assert false;
    } else {
      var a, b := Frame(Bind(args, |args|), wa.mem, wa.out), Frame(Bind(args, |args|), wb.mem, wb.out);
      assert Trim(wa.mem, depth) == wa.mem && Trim(wb.mem, depth) == wb.mem;
      assert Above(wa.mem, depth) == Above(wb.mem, depth);
      assert Rooted(pr[f], a.regs, depth) by {
        ProcOk(pr, f);
        BindArguments(args, |args|);
      }
      BlocksTwin(pr, mc, f, pr[f].g.blocks[0], NULL, a, b, wa, wb, depth, fuel);
    }
  }

  lemma BindArguments(args: seq<Val>, n: nat)
    requires n <= |args|
    ensures forall v :: v in Bind(args, n) ==> v.Argument?
  {
  }

  /** The functions the analysis leaves pure are pure in what their calls do. */
  lemma PureIsPure(pr: seq<Proc>, mc: Machine, isPure: map<nat, bool>, f: nat, args: seq<Val>, depth: nat, wa: World,
          wb: World, fuel: nat)
    requires Ok(pr) && AllRight(pr) && FuncInfo.ExactlyPure(pr, isPure) && f in isPure && isPure[f]
    requires Clean(wa.mem, depth) && Clean(wb.mem, depth)
    ensures var ra, rb := CallProc(pr, mc, f, args, depth, wa.mem, wa.out, fuel),
        CallProc(pr, mc, f, args, depth, wb.mem, wb.out, fuel);
      && (ra.Done? <==> rb.Done?)
      && (ra.Done? ==>
            ra.value.mem == wa.mem && ra.value.out == wa.out && rb.value == Ended(ra.value.result, wb.mem, wb.out))
  {
    PureCall(pr, mc, f, args, depth, wa, wb, fuel);
  }

  // ---------- the limit of the analysis ----------

  /** entry: a = alloca; br %0, exit, other.  other: br exit.
      exit: p = phi [a, entry], [@g, other]; store %0, p; ret. */
  function HoleCode(): map<Block, seq<Instr>> {
    map[
      0 := [Instr(Alloca(0), OpAlloca, []), Instr(Inst(0), OpBr, [Argument(0), Label(1), Label(2)])],
      1 := [Instr(Phi(Null, 1), OpPhi, [Alloca(0), Label(0), Global(0), Label(2)]),
            Instr(Inst(1), OpStore, [Argument(0), Phi(Null, 1)]),
            Instr(Inst(2), OpRet, [])],
      2 := [Instr(Inst(3), OpBr, [Label(1)])]]
  }

  function HoleProc(): Proc {
    Proc("f", [IntegerParam], Graph([0, 1, 2], map[0 := [1, 2], 1 := [], 2 := [1]],
        map[0 := [], 1 := [0, 2], 2 := [0]]), HoleCode(),
         map[Alloca(0) := HoleCode()[0][0], Inst(0) := HoleCode()[0][1],
             Phi(Null, 1) := HoleCode()[1][0], Inst(1) := HoleCode()[1][1], Inst(2) := HoleCode()[1][2],
             Inst(3) := HoleCode()[2][0]],
         {Alloca(0), Global(0), Phi(Null, 1)})
  }

  lemma HoleLooksLocal()
    ensures !TriviallyImpure(HoleProc())
  {
    var p := HoleProc();
    HoleAddress();
    assert IsLocalStore(p, p.code[1][1]);
  }

  lemma HoleMentionsNothing(g: nat)
    ensures !Mentions(HoleProc(), g)
  {
  }

  lemma HolePlaced(v: Value)
    requires v in HoleProc().defs
    ensures v.IsInstruction() && HoleProc().defs[v].id == v && HoleProc().Placed(HoleProc().defs[v])
  {
    var code := HoleCode();
    var b := if v.Alloca? || v == Inst(0) then 0 else if v == Inst(3) then 2 else 1;
    var list: seq<Instr> := code[b];
    assert HoleProc().defs[v] in list;
  }

  lemma HoleInstrOk(b: Block, i: nat)
    requires b in HoleCode() && i < |HoleCode()[b]|
    ensures HoleProc().InstrOk(1, HoleCode()[b][i])
  {
  }

  lemma HoleNotRight()
    ensures !AddressesRight(HoleProc())
  {
    var p := HoleProc();
    var phi := Phi(Null, 1);
    HoleAddress();
    HoleTakesGlobal();
    hide LocalValues, IsLocal, HoleProc;
    LocalClosed(p.defs);
    assert phi !in LocalValues(p.defs);
    HoleStore();
    assert !AddressRight(p, phi);
    assert !AccessRight(p, p.code[1][1]);
  }

  lemma HoleStore()
    ensures var p := HoleProc();
        1 in p.code && |p.code[1]| > 1 && p.code[1][1] == Instr(Inst(1), OpStore, [Argument(0), Phi(Null, 1)])
  {
  }

  lemma HoleTakesGlobal()
    ensures var p := HoleProc();
        Phi(Null, 1) in p.defs && TakesFrom(p.defs[Phi(Null, 1)], Global(0)) && Global(0) !in p.defs
  {
    var phi := HoleCode()[1][0];
    assert phi.operands[2..] == [Global(0), Label(2)];
    assert PhiSource(phi.operands[2..], 2) == Some(Global(0));
    assert PhiSource(phi.operands, 2) == Some(Global(0));
  }

  lemma HoleAddress()
    ensures IsLocal(HoleProc(), Phi(Null, 1))
  {
    var p := HoleProc();
    var ptrs := p.ptrs;
    assert FirstPointer(ptrs, p.defs[Phi(Null, 1)].operands) == Alloca(0);
    assert FirstAddr(p.defs - {Phi(Null, 1)}, ptrs, Alloca(0)) == Alloca(0);
    assert FirstAddr(p.defs, ptrs, Phi(Null, 1)) == Alloca(0);
  }

  lemma HoleBlocks()
    ensures HoleProc().code == HoleCode() && forall b :: b in HoleProc().g.blocks <==> b in HoleCode()
  {
  }

  lemma HoleOk()
    ensures Ok([HoleProc()]) && !AllRight([HoleProc()])
  {
    hide AddressesRight, HoleProc, HoleCode, Proc.Placed, Proc.InstrOk;
    var p := HoleProc();
    HoleBlocks();
    forall v | v in p.defs ensures v.IsInstruction() && p.defs[v].id == v && p.Placed(p.defs[v]) { HolePlaced(v); }
    forall b, i | b in p.code && 0 <= i < |p.code[b]| ensures p.InstrOk(1, p.code[b][i]) { HoleInstrOk(b, i); }
    assert p.Ok(1);
    HoleNotRight();
    HoleStays();
    assert !AddressesRight([p][0]);
  }

  /** Looking through a phi for an address trusts its first operand: a function
      that stores to a global through a phi is left pure. */
  lemma PhiAddressHole(mc: Machine)
    ensures Ok([HoleProc()]) && !AllRight([HoleProc()])
    ensures !CallsImpure([HoleProc()], 0)
    ensures CallProc([HoleProc()], mc, 0, [VInt(0)], 0, map[], [], 3) == Done(HoleEnd())
  {
    hide *;
    HoleOk();
    HoleStays();
    HoleRun([HoleProc()], mc);
    HoleCall(mc);
  }

  lemma HoleStays()
    ensures !CallsImpure([HoleProc()], 0)
  {
    hide HoleProc, TriviallyImpure, Mentions;
    if CallsImpure([HoleProc()], 0) {
      var path :| CallPath([HoleProc()], path) && path[0] == 0 && TriviallyImpure([HoleProc()][path[|path| - 1]]);
      if |path| > 1 {
        HoleMentionsNothing(path[1]);
        assert false;
      } else {
        HoleLooksLocal();
        assert false;
      }
    }
  }

  // The frame before the branch, before the phi, after it, and after the store.

  function HoleArgs(): Frame {
    Frame(map[Argument(0) := VInt(0)], map[], [])
  }

  function HoleBranched(): Frame {
    Frame(HoleArgs().regs[Alloca(0) := VPtr(OLocal(0, Alloca(0)), 0)], map[], [])
  }

  function HoleMerged(): Frame {
    HoleBranched().(regs := HoleBranched().regs[Phi(Null, 1) := VPtr(OGlobal(0), 0)])
  }

  function HoleStored(): Frame {
    HoleMerged().(mem := map[Cell(OGlobal(0), 0) := VInt(0)])
  }

  function HoleEnd(): Ended {
    Ended(None, map[Cell(OGlobal(0), 0) := VInt(0)], [])
  }

  lemma ListOfOne(pr: seq<Proc>, mc: Machine, ins: Instr, fr: Frame, to: Frame, depth: nat, fuel: nat)
    requires !ins.op.OpCall? && ExecSimple(mc, ins, fr, depth) == Done(to)
    ensures ExecList(pr, mc, [ins], fr, depth, fuel) == Done(to)
  {
    assert ExecList(pr, mc, [], to, depth, fuel) == Done(to);
  }

  lemma HoleExit(pr: seq<Proc>, mc: Machine)
    ensures RunBlocks(pr, mc, HoleCode(), 1, 2, HoleBranched(), 0, 1) == Done(HoleEnd())
  {
    hide ExecList;
    var list: seq<Instr> := HoleCode()[1];
    var phi := list[0];
    assert PhiSource(phi.operands, 2) == Some(Global(0)) by {
      assert PhiSource(phi.operands[2..], 2) == Some(Global(0));
    }
    var regs := HoleBranched().regs;
    assert EnterBlock([phi], 2, regs, regs) == HoleMerged().regs by {
      assert [phi][1..] == [];
      assert EnterBlock([], 2, regs, HoleMerged().regs) == HoleMerged().regs;
    }
    assert list[..1] == [phi] && list[1..2] == [list[1]];
    assert PhiCount(list) == 1 by { assert PhiCount(list[1..]) == 0; }
    ListOfOne(pr, mc, list[1], HoleMerged(), HoleStored(), 0, 1);
    assert Trim(HoleStored().mem, 0) == HoleStored().mem;
  }

  lemma HoleOther(pr: seq<Proc>, mc: Machine)
    ensures RunBlocks(pr, mc, HoleCode(), 2, 0, HoleBranched(), 0, 2) == Done(HoleEnd())
  {
    HoleExit(pr, mc);
    HoleSecond();
    hide Trim, ExecOne, HoleBranched, HoleEnd, HoleCode;
    var list: seq<Instr> := HoleCode()[2];
    assert list[..0] == [] && list[0..0] == [];
    var regs := HoleBranched().regs;
    assert EnterBlock([], 0, regs, regs) == regs;
  }

  lemma HoleSecond()
    ensures 2 in HoleCode() && HoleCode()[2] == [Instr(Inst(3), OpBr, [Label(1)])] && PhiCount(HoleCode()[2]) == 0
  {
  }

  lemma HoleRun(pr: seq<Proc>, mc: Machine)
    ensures RunBlocks(pr, mc, HoleCode(), 0, NULL, HoleArgs(), 0, 3) == Done(HoleEnd())
  {
    HoleOther(pr, mc);
    hide Trim, ExecList;
    var list: seq<Instr> := HoleCode()[0];
    var regs := HoleArgs().regs;
    assert EnterBlock([], NULL, regs, regs) == regs;
    assert list[..0] == [] && list[0..1] == [list[0]];
    ListOfOne(pr, mc, list[0], HoleArgs(), HoleBranched(), 0, 3);
  }

  lemma HoleCall(mc: Machine)
    requires RunBlocks([HoleProc()], mc, HoleCode(), 0, NULL, HoleArgs(), 0, 3) == Done(HoleEnd())
    ensures CallProc([HoleProc()], mc, 0, [VInt(0)], 0, map[], [], 3) == Done(HoleEnd())
  {
    hide RunBlocks, HoleCode;
    assert Bind([VInt(0)], 1) == HoleArgs().regs by {
      assert Bind([VInt(0)], 0) == map[];
    }
  }
}
