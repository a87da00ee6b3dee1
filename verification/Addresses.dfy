/** When the purity analysis calls an address local: the steps it takes, as a chain. */
module Addresses {
  import opened Ir
  import opened Program
  import opened CallGraph

  /** The k-th operand is the first of pointer type. */
  predicate FirstPointerAt(ptrs: set<Value>, operands: seq<Value>, k: int) {
    0 <= k < |operands| && operands[k] in ptrs && forall j :: 0 <= j < k ==> operands[j] !in ptrs
  }

  /** In at most n steps an alloca is reached: from a gep by its base, from any other
      instruction but a load by its first operand of pointer type. */
  ghost predicate Leads(p: Proc, v: Value, n: nat)
    decreases n
  {
    && n > 0 && v in p.defs
    && match p.defs[v].op
       case OpAlloca => true
       case OpLoad => false
       case OpGep => |p.defs[v].operands| > 0 && Leads(p, p.defs[v].operands[0], n - 1)
       case _ => exists k :: FirstPointerAt(p.ptrs, p.defs[v].operands, k) && Leads(p, p.defs[v].operands[k], n - 1)
  }

  lemma {:induction false} LeadsMore(p: Proc, v: Value, n: nat, m: nat)
    requires Leads(p, v, n) && n <= m
    ensures Leads(p, v, m)
    decreases n
  {
    var ops := p.defs[v].operands;
    match p.defs[v].op
    case OpAlloca =>
    case OpGep => LeadsMore(p, ops[0], n - 1, m - 1);
    case OpLoad =>
    case _ =>
      var k :| FirstPointerAt(p.ptrs, ops, k) && Leads(p, ops[k], n - 1);
      LeadsMore(p, ops[k], n - 1, m - 1);
  }

  lemma {:induction false} FirstPointerIs(ptrs: set<Value>, ops: seq<Value>)
    ensures FirstPointer(ptrs, ops) != Null ==>
              exists k :: FirstPointerAt(ptrs, ops, k) && ops[k] == FirstPointer(ptrs, ops)
    ensures forall k :: FirstPointerAt(ptrs, ops, k) ==> FirstPointer(ptrs, ops) == ops[k]
  {
    if |ops| > 0 {
      FirstPointerIs(ptrs, ops[1..]);
      if ops[0] in ptrs {
        assert FirstPointerAt(ptrs, ops, 0);
      } else {
        forall k | FirstPointerAt(ptrs, ops, k) ensures FirstPointer(ptrs, ops) == ops[k] {
          assert FirstPointerAt(ptrs, ops[1..], k - 1);
        }
        if FirstPointer(ptrs, ops) != Null {
          var k :| FirstPointerAt(ptrs, ops[1..], k) && ops[1..][k] == FirstPointer(ptrs, ops[1..]);
          var j := k + 1;
          assert FirstPointerAt(ptrs, ops, j) && ops[j] == FirstPointer(ptrs, ops);
        }
      }
    }
  }

  ghost predicate NamesInstructions(p: Proc) {
    forall x :: x in p.defs ==> x.IsInstruction()
  }

  /** The part of the definitions that the walk has not passed yet. */
  ghost predicate PartOf(p: Proc, seen: map<Value, Instr>) {
    forall x :: x in seen ==> x in p.defs && seen[x] == p.defs[x]
  }

  /** The walk ends in an alloca only along such a chain. */
  lemma {:induction false} WalkLeads(p: Proc, seen: map<Value, Instr>, v: Value)
    requires NamesInstructions(p) && PartOf(p, seen)
    requires forall x :: x in p.defs && x !in seen ==> !p.defs[x].op.OpAlloca?
    requires var from := FirstAddr(seen, p.ptrs, v); from in p.defs && p.defs[from].op.OpAlloca?
    ensures Leads(p, v, |seen| + 1)
    decreases |seen|
  {
    if v in seen && !seen[v].op.OpAlloca? {
      var ops := seen[v].operands;
      if seen[v].op.OpGep? {
        WalkLeads(p, seen - {v}, ops[0]);
      } else {
        FirstPointerIs(p.ptrs, ops);
        var k :| FirstPointerAt(p.ptrs, ops, k) && ops[k] == FirstPointer(p.ptrs, ops);
        WalkLeads(p, seen - {v}, ops[k]);
      }
    }
  }

  /** Along such a chain the walk ends in an alloca: what it has passed is further
      from the alloca than v, so it comes to nothing twice. */
  lemma {:induction false} LeadsWalk(p: Proc, seen: map<Value, Instr>, v: Value, n: nat)
    requires NamesInstructions(p) && PartOf(p, seen) && Leads(p, v, n)
    requires forall x :: x in p.defs && x !in seen ==> !Leads(p, x, n)
    ensures var from := FirstAddr(seen, p.ptrs, v); from in p.defs && p.defs[from].op.OpAlloca?
    decreases n
  {
    if Leads(p, v, n - 1) {
      forall x | x in p.defs && x !in seen ensures !Leads(p, x, n - 1) {
        if Leads(p, x, n - 1) { LeadsMore(p, x, n - 1, n); }
      }
      LeadsWalk(p, seen, v, n - 1);
    } else if !p.defs[v].op.OpAlloca? {
      var ops := p.defs[v].operands;
      forall x | x in p.defs && x !in seen - {v} ensures !Leads(p, x, n - 1) {
        if Leads(p, x, n - 1) { LeadsMore(p, x, n - 1, n); }
      }
      if p.defs[v].op.OpGep? {
        LeadsWalk(p, seen - {v}, ops[0], n - 1);
      } else {
        var k :| FirstPointerAt(p.ptrs, ops, k) && Leads(p, ops[k], n - 1);
        FirstPointerIs(p.ptrs, ops);
        assert ops[k] != Null;
        LeadsWalk(p, seen - {v}, ops[k], n - 1);
      }
    }
  }

  ghost predicate LeadsToAlloca(p: Proc, v: Value) {
    exists n: nat :: Leads(p, v, n)
  }

  /** The analysis calls an address local exactly when such a chain leads to an alloca. */
  lemma IsLocalIff(p: Proc, v: Value)
    requires NamesInstructions(p)
    ensures IsLocal(p, v) <==> LeadsToAlloca(p, v)
  {
    if IsLocal(p, v) {
      WalkLeads(p, p.defs, v);
      assert Leads(p, v, |p.defs| + 1);
    }
    if LeadsToAlloca(p, v) {
      var n: nat :| Leads(p, v, n);
      LeadsWalk(p, p.defs, v, n);
    }
  }
}
