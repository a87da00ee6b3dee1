/** What makes a function impure: a side effect of its own, or a call chain to one. */
module CallGraph {
  import opened Ir
  import opened Program

  // ---------- where an address comes from ----------

  /** The value an address is computed from. Following an operand drops the
      instruction it belongs to, so a cycle of operands ends the walk. */
  function FirstAddr(defs: map<Value, Instr>, ptrs: set<Value>, v: Value): Value
    decreases |defs|
  {
    if v.IsInstruction() && v in defs then
      var ins := defs[v];
      var rest := defs - {v};
      if ins.op.OpAlloca? then v
      else if ins.op.OpGep? then if |ins.operands| == 0 then v else FirstAddr(rest, ptrs, ins.operands[0])
      else if ins.op.OpLoad? then v
      else
        match FirstPointer(ptrs, ins.operands)
        case Null => v
        case op => FirstAddr(rest, ptrs, op)
    else v
  }

  /** The first operand of pointer type, Null when there is none. */
  function FirstPointer(ptrs: set<Value>, operands: seq<Value>): Value {
    if |operands| == 0 then Null
    else if operands[0] in ptrs then operands[0]
    else FirstPointer(ptrs, operands[1..])
  }

  /** The address comes from an alloca of this function. */
  predicate IsLocal(p: Proc, address: Value) {
    var from := FirstAddr(p.defs, p.ptrs, address);
    from in p.defs && p.defs[from].op.OpAlloca?
  }

  predicate IsLocalLoad(p: Proc, ins: Instr) {
    |ins.operands| == 1 && IsLocal(p, ins.operands[0])
  }

  predicate IsLocalStore(p: Proc, ins: Instr) {
    |ins.operands| == 2 && IsLocal(p, ins.operands[1])
  }

  predicate IsSideEffect(p: Proc, ins: Instr) {
    if ins.op.OpStore? then !IsLocalStore(p, ins)
    else if ins.op.OpLoad? then !IsLocalLoad(p, ins)
    else false
  }

  // ---------- impurity ----------

  predicate IsScalar(t: ParamType) {
    t.IntegerParam? || t.FloatParam?
  }

  ghost predicate TriviallyImpure(p: Proc) {
    || p.IsDeclaration()
    || p.name == "main"
    || (exists i :: 0 <= i < |p.params| && !IsScalar(p.params[i]))
    || (exists b, i :: b in p.code && 0 <= i < |p.code[b]| && IsSideEffect(p, p.code[b][i]))
  }

  /** Some instruction of the function has function g as an operand. */
  ghost predicate Mentions(p: Proc, g: nat) {
    exists b, i :: b in p.code && 0 <= i < |p.code[b]| && Func(g) in p.code[b][i].operands
  }

  ghost predicate CallPath(pr: seq<Proc>, path: seq<nat>) {
    && |path| > 0
    && (forall i :: 0 <= i < |path| ==> path[i] < |pr|)
    && (forall i :: 0 < i < |path| ==> Mentions(pr[path[i - 1]], path[i]))
  }

  /** A chain of zero or more calls leads from f to a function with a side effect. */
  ghost predicate CallsImpure(pr: seq<Proc>, f: nat) {
    exists path :: CallPath(pr, path) && path[0] == f && TriviallyImpure(pr[path[|path| - 1]])
  }

  lemma CallsImpureItself(pr: seq<Proc>, f: nat)
    requires f < |pr| && TriviallyImpure(pr[f])
    ensures CallsImpure(pr, f)
  {
    assert CallPath(pr, [f]);
  }

  lemma CallsImpureThrough(pr: seq<Proc>, f: nat, g: nat)
    requires f < |pr| && Mentions(pr[f], g) && CallsImpure(pr, g)
    ensures CallsImpure(pr, f)
  {
    var path :| CallPath(pr, path) && path[0] == g && TriviallyImpure(pr[path[|path| - 1]]);
    var longer := [f] + path;
    forall i | 0 < i < |longer|
      ensures Mentions(pr[longer[i - 1]], longer[i])
    {
      if i > 1 {
        assert longer[i - 1] == path[i - 2] && longer[i] == path[i - 1];
      }
    }
    assert CallPath(pr, longer);
  }

  /** A set of functions that holds every function with a side effect and every
      caller of a member holds all functions that reach a side effect. */
  lemma {:induction false} ClosedUnderCallers(pr: seq<Proc>, impure: set<nat>, path: seq<nat>)
    requires forall f :: 0 <= f < |pr| && TriviallyImpure(pr[f]) ==> f in impure
    requires forall f, g {:trigger Mentions(pr[f], g)} ::
        0 <= f < |pr| && 0 <= g < |pr| && g in impure && Mentions(pr[f], g) ==> f in impure
    requires CallPath(pr, path) && TriviallyImpure(pr[path[|path| - 1]])
    ensures path[0] in impure
    decreases |path|
  {
    if |path| > 1 {
      var tail := path[1..];
      forall i | 0 < i < |tail|
        ensures Mentions(pr[tail[i - 1]], tail[i])
      {
        var k := i + 1;
        assert tail[i] == path[k] && tail[i - 1] == path[k - 1];
      }
      ClosedUnderCallers(pr, impure, tail);
      assert Mentions(pr[path[0]], path[1]);
    }
  }
}
