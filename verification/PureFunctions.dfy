/** Which functions are pure, said of their text: what they are called, what they
    take, where their loads and stores go and whom they name. */
module PureFunctions {
  import opened Ir
  import opened Program
  import opened CallGraph
  import opened Addresses
  import opened Purity

  /** Loads and stores are through addresses that lead to an alloca. */
  ghost predicate LocalAccess(p: Proc, ins: Instr) {
    match ins.op
    case OpLoad => |ins.operands| == 1 && LeadsToAlloca(p, ins.operands[0])
    case OpStore => |ins.operands| == 2 && LeadsToAlloca(p, ins.operands[1])
    case _ => true
  }

  /** Loads and stores are through addresses that geps lead back to an alloca. */
  ghost predicate GepAccess(p: Proc, ins: Instr) {
    match ins.op
    case OpLoad => |ins.operands| == 1 && exists n: nat :: FromAlloca(p.defs, ins.operands[0], n)
    case OpStore => |ins.operands| == 2 && exists n: nat :: FromAlloca(p.defs, ins.operands[1], n)
    case _ => true
  }

  /** A defined function other than main that takes numbers only. */
  predicate NumbersOnly(p: Proc) {
    && |p.g.blocks| > 0 && p.name != "main"
    && forall i :: 0 <= i < |p.params| ==> p.params[i] == IntegerParam || p.params[i] == FloatParam
  }

  /** The function names only functions of the set. */
  ghost predicate NamesOnly(pr: seq<Proc>, p: Proc, fs: set<nat>) {
    forall b, i, g: nat ::
        b in p.code && 0 <= i < |p.code[b]| && Func(g) in p.code[b][i].operands && g < |pr| ==> g in fs
  }

  /** Functions that take numbers, touch only their own frame and name only one another. */
  ghost predicate SelfContained(pr: seq<Proc>, fs: set<nat>) {
    forall f :: f in fs ==>
      && f < |pr| && NumbersOnly(pr[f]) && NamesOnly(pr, pr[f], fs)
      && forall b, i :: b in pr[f].code && 0 <= i < |pr[f].code[b]| ==> LocalAccess(pr[f], pr[f].code[b][i])
  }

  lemma AccessIff(p: Proc, ins: Instr)
    requires NamesInstructions(p)
    ensures LocalAccess(p, ins) <==> !IsSideEffect(p, ins)
  {
    hide IsLocal, LeadsToAlloca;
    if |ins.operands| >= 1 { IsLocalIff(p, ins.operands[0]); }
    if |ins.operands| >= 2 { IsLocalIff(p, ins.operands[1]); }
  }

  lemma ProcNames(pr: seq<Proc>, f: nat)
    requires Ok(pr) && f < |pr|
    ensures NamesInstructions(pr[f])
  {
    assert pr[f].Ok(|pr|);
  }

  lemma {:induction false} StaysInside(pr: seq<Proc>, fs: set<nat>, path: seq<nat>)
    requires SelfContained(pr, fs) && CallPath(pr, path) && path[0] in fs
    ensures path[|path| - 1] in fs
    decreases |path|
  {
    hide LocalAccess, NumbersOnly;
    if |path| > 1 {
      var front := path[..|path| - 1];
      forall i | 0 < i < |front| ensures Mentions(pr[front[i - 1]], front[i]) {
        assert front[i] == path[i] && front[i - 1] == path[i - 1];
      }
      StaysInside(pr, fs, front);
      assert Mentions(pr[path[|path| - 2]], path[|path| - 1]);
    }
  }

  lemma InsideIsQuiet(pr: seq<Proc>, fs: set<nat>, f: nat)
    requires Ok(pr) && SelfContained(pr, fs) && f in fs
    ensures !CallsImpure(pr, f)
  {
    if CallsImpure(pr, f) {
      var path :| CallPath(pr, path) && path[0] == f && TriviallyImpure(pr[path[|path| - 1]]);
      StaysInside(pr, fs, path);
      var p := pr[path[|path| - 1]];
      ProcNames(pr, path[|path| - 1]);
      hide IsSideEffect, LocalAccess, NamesOnly, CallPath;
      forall b, i | b in p.code && 0 <= i < |p.code[b]| ensures !IsSideEffect(p, p.code[b][i]) {
        AccessIff(p, p.code[b][i]);
      }
      assert false;
    }
  }

  /** The functions that reach no side effect. */
  ghost function QuietOnes(pr: seq<Proc>): set<nat> {
    set f: nat | f < |pr| && !CallsImpure(pr, f)
  }

  lemma QuietIsInside(pr: seq<Proc>, f: nat)
    requires Ok(pr) && f in QuietOnes(pr)
    ensures NumbersOnly(pr[f]) && NamesOnly(pr, pr[f], QuietOnes(pr))
    ensures forall b, i :: b in pr[f].code && 0 <= i < |pr[f].code[b]| ==> LocalAccess(pr[f], pr[f].code[b][i])
  {
    hide CallsImpure, IsSideEffect, LocalAccess;
    if TriviallyImpure(pr[f]) { CallsImpureItself(pr, f); }
    forall b, i, g: nat | b in pr[f].code && 0 <= i < |pr[f].code[b]| && Func(g) in pr[f].code[b][i].operands
        && g < |pr|
      ensures !CallsImpure(pr, g)
    {
      if CallsImpure(pr, g) { CallsImpureThrough(pr, f, g); }
    }
    ProcNames(pr, f);
    forall b, i | b in pr[f].code && 0 <= i < |pr[f].code[b]| ensures LocalAccess(pr[f], pr[f].code[b][i]) {
      AccessIff(pr[f], pr[f].code[b][i]);
    }
  }

  /** A function is pure exactly when it belongs to such a set of functions. */
  lemma PureIff(pr: seq<Proc>, isPure: map<nat, bool>, f: nat)
    requires Ok(pr) && FuncInfo.ExactlyPure(pr, isPure) && f < |pr|
    ensures f in isPure && (isPure[f] <==> exists fs :: SelfContained(pr, fs) && f in fs)
  {
    hide CallsImpure, NumbersOnly, NamesOnly, LocalAccess;
    if isPure[f] {
      forall g | g in QuietOnes(pr)
        ensures g < |pr| && NumbersOnly(pr[g]) && NamesOnly(pr, pr[g], QuietOnes(pr))
        ensures forall b, i :: b in pr[g].code && 0 <= i < |pr[g].code[b]| ==> LocalAccess(pr[g], pr[g].code[b][i])
      {
        QuietIsInside(pr, g);
      }
      assert SelfContained(pr, QuietOnes(pr)) && f in QuietOnes(pr);
    }
    if fs :| SelfContained(pr, fs) && f in fs { InsideIsQuiet(pr, fs, f); }
  }

  /** So functions that use nothing but numbers and their own arrays are pure. */
  lemma GepsArePure(pr: seq<Proc>, isPure: map<nat, bool>, fs: set<nat>, f: nat)
    requires Ok(pr) && FuncInfo.ExactlyPure(pr, isPure) && f in fs
    requires forall g :: g in fs ==> g < |pr| && NumbersOnly(pr[g]) && NamesOnly(pr, pr[g], fs)
    requires forall g, b, i :: g in fs && b in pr[g].code && 0 <= i < |pr[g].code[b]| ==>
               GepAccess(pr[g], pr[g].code[b][i])
    ensures f in isPure && isPure[f]
  {
    hide NumbersOnly, NamesOnly, CallsImpure;
    forall g, b, i | g in fs && b in pr[g].code && 0 <= i < |pr[g].code[b]|
      ensures LocalAccess(pr[g], pr[g].code[b][i])
    {
      GepIsLocalAccess(pr[g], pr[g].code[b][i]);
    }
    assert SelfContained(pr, fs);
    InsideIsQuiet(pr, fs, f);
  }

  lemma GepIsLocalAccess(p: Proc, ins: Instr)
    requires GepAccess(p, ins)
    ensures LocalAccess(p, ins)
  {
    match ins.op
    case OpLoad =>
      var n: nat :| FromAlloca(p.defs, ins.operands[0], n);
      FromAllocaLeads(p, ins.operands[0], n);
    case OpStore =>
      var n: nat :| FromAlloca(p.defs, ins.operands[1], n);
      FromAllocaLeads(p, ins.operands[1], n);
    case _ =>
  }

  /** A declaration, main, and every function with a pointer parameter are impure. */
  lemma ImpureByName(pr: seq<Proc>, isPure: map<nat, bool>, f: nat)
    requires FuncInfo.ExactlyPure(pr, isPure) && f < |pr|
    requires |pr[f].g.blocks| == 0 || pr[f].name == "main" || PointerParam in pr[f].params
    ensures f in isPure && !isPure[f]
  {
    hide CallsImpure;
    if PointerParam in pr[f].params {
      var i :| 0 <= i < |pr[f].params| && pr[f].params[i] == PointerParam;
      assert !IsScalar(pr[f].params[i]);
    }
    CallsImpureItself(pr, f);
  }
}
