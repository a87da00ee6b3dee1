/** Private allocas in memory: those that a module only loads from and stores to.
    No address of one is ever at large, so the objects behind them can be hidden. */
module Escape {
  import opened Ir
  import opened Exec
  import opened Program

  /** A cell is used as the pointer of loads and stores and for nothing else, and
      every alloca used so is one. Calls name their function, allocas have no
      operands. */
  predicate Fits(cells: set<Value>, ins: Instr) {
    && (if ins.IsCellLoad() then ins.operands[0] in cells
        else if ins.IsCellStore() then ins.operands[1] in cells && ins.operands[0] !in cells
        else forall o :: o in ins.operands ==> o !in cells)
    && (ins.op.OpCall? ==> |ins.operands| > 0 && ins.operands[0].Func?)
    && (ins.op.OpAlloca? ==> ins.operands == [])
  }

  ghost predicate Private(cells: set<Value>, pr: seq<Proc>) {
    && (forall a :: a in cells ==> a.Alloca?)
    && (forall f, b, i :: 0 <= f < |pr| && b in pr[f].code && 0 <= i < |pr[f].code[b]| ==>
          Fits(cells, pr[f].code[b][i]))
  }

  // ---------- hidden objects ----------

  predicate Hidden(cells: set<Value>, o: Obj) {
    o.OLocal? && o.alloca in cells
  }

  /** The memory without the hidden objects. */
  function Visible(cells: set<Value>, mem: Mem): Mem {
    map c | c in mem && !Hidden(cells, c.obj) :: mem[c]
  }

  /** Not the address of a hidden object. */
  predicate Open(cells: set<Value>, x: Val) {
    x.VPtr? ==> !Hidden(cells, x.obj)
  }

  predicate OpenResult(cells: set<Value>, x: Option<Val>) {
    x.Some? ==> Open(cells, x.value)
  }

  ghost predicate OpenAll(cells: set<Value>, xs: seq<Val>) {
    forall i :: 0 <= i < |xs| ==> Open(cells, xs[i])
  }

  ghost predicate OpenMem(cells: set<Value>, mem: Mem) {
    forall c :: c in mem ==> Open(cells, mem[c])
  }

  ghost predicate SameAt(a: Mem, b: Mem, c: Cell) {
    (c in a <==> c in b) && (c in a ==> a[c] == b[c])
  }

  /** The hidden objects are the same in both memories. */
  ghost predicate SameHidden(cells: set<Value>, a: Mem, b: Mem) {
    forall c: Cell :: Hidden(cells, c.obj) ==> SameAt(a, b, c)
  }

  /** The hidden objects of the frames below this depth are the same in both. */
  ghost predicate SameBelow(cells: set<Value>, depth: nat, a: Mem, b: Mem) {
    forall c: Cell :: Hidden(cells, c.obj) && c.obj.depth < depth ==> SameAt(a, b, c)
  }

  // ---------- instructions on values and declared functions ----------

  /** A declared function, told no address of a hidden object, does the same
      without them, leaves them alone and gives no address of one away. */
  ghost predicate ExtHonest(cells: set<Value>, mc: Machine, g: nat, args: seq<Val>, mem: Mem, out: Out) {
    match mc.ext(g, args, mem, out)
    case None => true
    case Some((r, mem', out')) =>
      && mc.ext(g, args, Visible(cells, mem), out) == Some((r, Visible(cells, mem'), out'))
      && OpenResult(cells, r) && OpenMem(cells, mem') && SameHidden(cells, mem, mem')
  }

  /** No instruction makes an address up, and declared functions are honest. */
  ghost predicate Honest(cells: set<Value>, mc: Machine) {
    && (forall op, id, xs :: OpenAll(cells, xs) ==> OpenResult(cells, mc.alu(op, id, xs)))
    && (forall g, args, mem, out :: OpenAll(cells, args) && OpenMem(cells, mem) ==>
          ExtHonest(cells, mc, g, args, mem, out))
  }

  predicate Number(x: Option<Val>) {
    x.Some? ==> x.value.VInt?
  }

  /** Declared functions that read and write numbers only, as those of the runtime
      library do, are honest; so are instructions that compute numbers. */
  lemma NumbersAreHonest(cells: set<Value>, mc: Machine)
    requires forall op, id, xs :: Number(mc.alu(op, id, xs))
    requires forall g, args, mem, out :: mc.ext(g, args, mem, out).Some? ==>
               Number(mc.ext(g, args, mem, out).value.0) && mc.ext(g, args, mem, out).value.1 == mem
    requires forall g, args, mem, mem', out :: mc.ext(g, args, mem, out).Some? ==>
               mc.ext(g, args, mem', out) == Some((mc.ext(g, args, mem, out).value.0, mem',
                   mc.ext(g, args, mem, out).value.2))
    ensures Honest(cells, mc)
  {
    forall g, args, mem, out | OpenAll(cells, args) && OpenMem(cells, mem)
      ensures ExtHonest(cells, mc, g, args, mem, out)
    {
    }
  }

  // ---------- hiding and the operations on memory ----------

  lemma VisibleStore(cells: set<Value>, mem: Mem, c: Cell, x: Val)
    ensures !Hidden(cells, c.obj) ==> Visible(cells, mem[c := x]) == Visible(cells, mem)[c := x]
    ensures Hidden(cells, c.obj) ==> Visible(cells, mem[c := x]) == Visible(cells, mem)
  {
  }

  lemma VisibleTrim(cells: set<Value>, mem: Mem, depth: nat)
    ensures Visible(cells, Trim(mem, depth)) == Trim(Visible(cells, mem), depth)
  {
  }

  lemma OpenStore(cells: set<Value>, mem: Mem, c: Cell, x: Val)
    requires OpenMem(cells, mem) && Open(cells, x)
    ensures OpenMem(cells, mem[c := x])
  {
  }

  /** When a frame is gone, the hidden objects are as they were before it. */
  lemma TrimRestores(cells: set<Value>, depth: nat, mem: Mem, mem': Mem)
    requires Clean(mem, depth) && SameBelow(cells, depth, mem, mem')
    ensures SameHidden(cells, mem, Trim(mem', depth)) && Clean(Trim(mem', depth), depth)
  {
    forall c: Cell | Hidden(cells, c.obj)
      ensures SameAt(mem, Trim(mem', depth), c)
    {
      if c.obj.depth < depth { assert SameAt(mem, mem', c); }
    }
  }

  lemma OpenTrim(cells: set<Value>, mem: Mem, depth: nat)
    requires OpenMem(cells, mem)
    ensures OpenMem(cells, Trim(mem, depth))
  {
  }

  /** A memory without hidden objects stays one when the hidden objects stay. */
  lemma NothingHidden(cells: set<Value>, a: Mem, b: Mem)
    requires Visible(cells, a) == a && SameHidden(cells, a, b)
    ensures Visible(cells, b) == b
  {
    forall c: Cell | Hidden(cells, c.obj) ensures c !in b {
      assert SameAt(a, b, c);
      assert c !in Visible(cells, a);
    }
  }
}
