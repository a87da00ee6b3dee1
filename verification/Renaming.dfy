/** What renaming computes, block by block: the current definition of every
    promoted variable and the replacement of every promoted load, as functions
    of the dominator chain; and when those definitions are the reaching ones. */
module Renaming {
  import opened Cfg
  import opened Ir

  // ---------- the functions the pass accepts ----------

  ghost predicate DefinedAt(f: Function, x: Value, c: Block, j: int) {
    c in f.code && 0 <= j < |f.code[c]| && f.code[c][j].id == x && f.code[c][j].Defines()
  }

  /** Position (c, j) is executed before position (b, i) on every path to it. */
  ghost predicate Before(g: Graph, c: Block, j: int, b: Block, i: int)
    requires g.Valid()
  {
    (c == b && j < i) || SDom(g, c, b)
  }

  /** x may be used at position i of block b: its definition dominates the use. */
  ghost predicate InScope(f: Function, b: Block, i: int, x: Value)
    requires f.g.Valid()
  {
    x.IsInstruction() ==> exists c, j :: DefinedAt(f, x, c, j) && Before(f.g, c, j, b, i)
  }

  ghost predicate BlocksShaped(f: Function) {
    && f.g.Valid()
    && (forall b :: b in f.code <==> b in f.g.blocks)
    && (forall b :: b in f.code ==> |f.code[b]| > 0)
    && (forall b, i :: b in f.code && 0 <= i < |f.code[b]| ==>
          f.code[b][i].Shaped() && !f.code[b][i].IsPhi() && Null !in f.code[b][i].operands
              && (f.code[b][i].IsTerminator() <==> i == |f.code[b]| - 1))
    && (forall b, s :: b in f.code ==> (s in Targets(f.code[b][|f.code[b]| - 1]) <==> s in f.g.succ[b]))
  }

  /** An instruction's address tells its class, and no two share one. */
  ghost predicate IdsOk(f: Function) {
    && (forall b, i :: b in f.code && 0 <= i < |f.code[b]| ==>
          var ins := f.code[b][i];
          (ins.op.OpAlloca? <==> ins.id.Alloca?) && (ins.op.OpGep? <==> ins.id.Gep?) &&
          (!ins.op.OpAlloca? && !ins.op.OpGep? ==> ins.id.Inst?))
    && (forall b, i, c, j ::
          (b in f.code && 0 <= i < |f.code[b]| && c in f.code && 0 <= j < |f.code[c]|
              && f.code[b][i].id == f.code[c][j].id)
          ==> b == c && i == j)
  }

  /** Stores go through an alloca, a gep or a global, and never store an alloca's address. */
  ghost predicate StoresOk(f: Function) {
    forall b, i :: b in f.code && 0 <= i < |f.code[b]| && f.code[b][i].op.OpStore? && |f.code[b][i].operands| == 2 ==>
      && (f.code[b][i].operands[1].Alloca? || f.code[b][i].operands[1].Gep? || f.code[b][i].operands[1].Global?)
      && !f.code[b][i].operands[0].Alloca?
  }

  /** Definitions dominate uses in every reachable block. */
  ghost predicate UsesOk(f: Function)
    requires f.g.Valid()
  {
    forall b, i, x :: b in f.code && Reachable(f.g, b) && 0 <= i < |f.code[b]| && x in f.code[b][i].operands ==>
      InScope(f, b, i, x)
  }

  /** No operand is a phi: there are none before the pass. */
  ghost predicate NoPhisYet(f: Function) {
    forall b, i, o :: b in f.code && 0 <= i < |f.code[b]| && o in f.code[b][i].operands ==> !o.Phi?
  }

  ghost predicate WellFormed(f: Function) {
    && BlocksShaped(f)
    && IdsOk(f)
    && StoresOk(f)
    && NoPhisYet(f)
    && UsesOk(f)
    && PredsReachable(f.g)
    && f.g.pre[f.g.Entry()] == []
  }

  ghost predicate StoresBefore(f: Function, b: Block, i: int, v: Value)
    requires b in f.code && i <= |f.code[b]|
  {
    exists j :: 0 <= j < i && f.code[b][j].IsCellStore() && f.code[b][j].operands[1] == v
  }

  /** Block b contains a store to variable v. */
  ghost predicate StoresTo(f: Function, b: Block, v: Value) {
    b in f.code && StoresBefore(f, b, |f.code[b]|, v)
  }

  ghost predicate StoredOnPath(f: Function, q: seq<Block>, v: Value) {
    exists k :: 0 <= k < |q| && StoresTo(f, q[k], v)
  }

  ghost function StoreBlocks(f: Function, v: Value): set<Block> {
    set c | c in f.code && StoresTo(f, c, v)
  }

  /** The variable is stored in more than one block. */
  ghost predicate IsMulti(f: Function, v: Value) {
    |StoreBlocks(f, v)| > 1
  }

  ghost function StoreTargets(f: Function): set<Value> {
    set b, i | b in f.code && 0 <= i < |f.code[b]| && f.code[b][i].IsCellStore() :: f.code[b][i].operands[1]
  }

  ghost function MultiVars(f: Function): set<Value> {
    set v | v in StoreTargets(f) && IsMulti(f, v)
  }

  /** Some path stores the variable before it reaches b. */
  ghost predicate SomePathStores(f: Function, b: Block, v: Value)
    requires f.g.Valid()
  {
    exists q :: PathTo(f.g, q, b) && StoredOnPath(f, q[..|q| - 1], v)
  }

  /** Some block that strictly dominates b stores the variable. */
  ghost predicate DominatorStores(f: Function, b: Block, v: Value)
    requires f.g.Valid()
  {
    exists c :: StoresTo(f, c, v) && SDom(f.g, c, b)
  }

  /** What a promoted load of v at (b, i) needs: a store before it in its block, or
      before the block on some path, for a variable of multi, and in a dominator
      for any other. */
  ghost predicate FindsDefinition(f: Function, multi: set<Value>, b: Block, i: int, v: Value)
    requires f.g.Valid() && b in f.code && i <= |f.code[b]|
  {
    StoresBefore(f, b, i, v) || (if v in multi then SomePathStores(f, b, v) else DominatorStores(f, b, v))
  }

  ghost predicate LoadsDefined(f: Function, multi: set<Value>)
    requires f.g.Valid()
  {
    forall b, i :: b in f.code && Reachable(f.g, b) && 0 <= i < |f.code[b]| && f.code[b][i].IsCellLoad() ==>
      FindsDefinition(f, multi, b, i, f.code[b][i].operands[0])
  }

  /** On every path to a promoted load the variable has been stored before. */
  ghost predicate DefinitelyAssigned(f: Function)
    requires f.g.Valid()
  {
    forall b, i, q :: b in f.code && 0 <= i < |f.code[b]| && f.code[b][i].IsCellLoad() && PathTo(f.g, q, b) ==>
      StoredOnPath(f, q[..|q| - 1], f.code[b][i].operands[0]) || StoresBefore(f, b, i, f.code[b][i].operands[0])
  }

  // ---------- the renaming state ----------

  /** env: the value on top of each variable's stack; sub: what replaces each promoted load. */
  datatype RS = RS(env: map<Value, Value>, sub: map<Value, Value>)

  function WalkInstr(ins: Instr, rs: RS): RS {
    if ins.IsCellStore() then rs.(env := rs.env[ins.operands[1] := Sub(rs.sub, ins.operands[0])])
    else if ins.IsCellLoad() && ins.operands[0] in rs.env then rs.(sub := rs.sub[ins.id := rs.env[ins.operands[0]]])
    else rs
  }

  function Walk(list: seq<Instr>, i: int, rs: RS): RS
    requires 0 <= i <= |list|
  {
    if i == 0 then rs else WalkInstr(list[i - 1], Walk(list, i - 1, rs))
  }

  function Enter(vars: set<Value>, b: Block, rs: RS): RS {
    rs.(env := rs.env + map v | v in vars :: Phi(v, b))
  }

  /** A function with the results renaming relies on: immediate dominators,
      the variables stored in more than one block, and the phis placed. */
  datatype Problem = Problem(f: Function, idom: map<Block, Block>, multi: set<Value>, phiVars: map<Block, set<Value>>) {

    ghost predicate Analysed() {
      && f.g.Valid()
      && (forall b :: b in f.g.blocks ==> b in f.code && b in phiVars)
      && (forall b :: b in f.g.blocks && Reachable(f.g, b) && b != f.g.Entry() ==> b in idom && IDom(f.g, idom[b], b))
    }

    /** Variables outside multi are stored in at most one block; phis exist only
        for variables in multi, and are closed under dominance frontiers. */
    ghost predicate PhisPlaced()
      requires f.g.Valid()
    {
      && (forall b, c, v :: StoresTo(f, b, v) && StoresTo(f, c, v) && b != c ==> v in multi)
      && (forall b, v :: b in phiVars && v in phiVars[b] ==> v in multi && v.Alloca?)
      && f.g.Entry() in phiVars && phiVars[f.g.Entry()] == {}
      && (forall x, y, v {:trigger InFrontier(f.g, x, y), v in phiVars[y]} ::
            (x in phiVars && y in phiVars && v in multi && Reachable(f.g, x) && Reachable(f.g, y)
                && InFrontier(f.g, x, y))
            ==> StoresTo(f, x, v) || v in phiVars[x] ==> v in phiVars[y])
    }

    ghost predicate Valid() {
      Analysed() && WellFormed(f) && LoadsDefined(f, multi) && PhisPlaced()
    }
  }

  /** The state after the phis of block b. */
  ghost function Start(p: Problem, b: Block): RS
    requires p.Analysed() && b in p.f.g.blocks && Reachable(p.f.g, b)
    decreases Depth(p.f.g, b)
  {
    if b == p.f.g.Entry() then Enter(p.phiVars[b], b, RS(map[], map[]))
    else
      var d := p.idom[b];
      DepthGrows(p.f.g, d, b);
      DomReachable(p.f.g, d, b);
      Enter(p.phiVars[b], b, Walk(p.f.code[d], |p.f.code[d]|, Start(p, d)))
  }

  /** The state after the first i instructions of block b. */
  ghost function At(p: Problem, b: Block, i: int): RS
    requires p.Analysed() && b in p.f.g.blocks && Reachable(p.f.g, b) && 0 <= i <= |p.f.code[b]|
  {
    Walk(p.f.code[b], i, Start(p, b))
  }

  ghost function End(p: Problem, b: Block): RS
    requires p.Analysed() && b in p.f.g.blocks && Reachable(p.f.g, b)
  {
    At(p, b, |p.f.code[b]|)
  }

  /** Where a block other than the entry starts from. */
  lemma StartFromIdom(p: Problem, b: Block)
    requires p.Analysed() && b in p.f.g.blocks && Reachable(p.f.g, b) && b != p.f.g.Entry()
    ensures p.idom[b] in p.f.g.blocks && Reachable(p.f.g, p.idom[b])
    ensures Start(p, b) == Enter(p.phiVars[b], b, End(p, p.idom[b]))
    ensures IDom(p.f.g, p.idom[b], b) && Depth(p.f.g, p.idom[b]) < Depth(p.f.g, b)
  {
    DomReachable(p.f.g, p.idom[b], b);
    DepthGrows(p.f.g, p.idom[b], b);
  }

  // ---------- walking one block ----------

  /** The two states give v the same definition, or neither has one. */
  ghost predicate SameDef(r: RS, s: RS, v: Value) {
    (v in r.env <==> v in s.env) && (v in r.env ==> r.env[v] == s.env[v])
  }

  lemma {:induction false} WalkKeepsEnv(f: Function, b: Block, i: int, rs: RS, v: Value)
    requires b in f.code && 0 <= i <= |f.code[b]|
    ensures v in rs.env ==> v in Walk(f.code[b], i, rs).env
    ensures StoresBefore(f, b, i, v) ==> v in Walk(f.code[b], i, rs).env
    ensures !StoresBefore(f, b, i, v) ==> SameDef(Walk(f.code[b], i, rs), rs, v)
  {
    if i > 0 {
      WalkKeepsEnv(f, b, i - 1, rs, v);
      if !StoresBefore(f, b, i, v) {
        assert !StoresBefore(f, b, i - 1, v);
        assert !(f.code[b][i - 1].IsCellStore() && f.code[b][i - 1].operands[1] == v);
      } else if !StoresBefore(f, b, i - 1, v) {
        assert f.code[b][i - 1].IsCellStore() && f.code[b][i - 1].operands[1] == v;
      }
    }
  }

  ghost predicate SameSub(s: map<Value, Value>, t: map<Value, Value>, x: Value) {
    (x in s <==> x in t) && (x in s ==> s[x] == t[x])
  }

  /** Replacements only arise from the loads of the block walked. */
  lemma {:induction false} WalkKeepsSub(f: Function, b: Block, lo: int, i: int, rs: RS, x: Value)
    requires b in f.code && 0 <= lo <= i <= |f.code[b]|
    requires forall j :: lo <= j < i ==> f.code[b][j].id != x
    ensures SameSub(Walk(f.code[b], i, rs).sub, Walk(f.code[b], lo, rs).sub, x)
  {
    if i > lo {
      WalkKeepsSub(f, b, lo, i - 1, rs, x);
    }
  }

  // ---------- along the dominator chain ----------

  /** A definition at the end of a strict dominator is still there. */
  lemma {:induction false} EnvAlongDom(p: Problem, c: Block, b: Block, v: Value)
    requires p.Analysed() && SDom(p.f.g, c, b) && c in p.f.g.blocks && Reachable(p.f.g, c)
    requires b in p.f.g.blocks && Reachable(p.f.g, b) && v in End(p, c).env
    ensures v in Start(p, b).env
    decreases Depth(p.f.g, b)
  {
    if b == p.f.g.Entry() {
      OnlyEntryDominatesEntry(p.f.g, c);
    } else {
      StartFromIdom(p, b);
      var d := p.idom[b];
      if c != d {
        EnvAlongDom(p, c, d, v);
      }
      WalkKeepsEnv(p.f, d, |p.f.code[d]|, Start(p, d), v);
    }
  }

  /** For a variable stored in one block only, a definition stems from a dominating store. */
  lemma {:induction false} EnvFromStore(p: Problem, b: Block, v: Value) returns (c: Block)
    requires p.Analysed() && p.PhisPlaced() && b in p.f.g.blocks && Reachable(p.f.g, b)
    requires v in End(p, b).env && v !in p.multi
    ensures StoresTo(p.f, c, v) && Dom(p.f.g, c, b)
    decreases Depth(p.f.g, b)
  {
    if StoresTo(p.f, b, v) {
      c := b;
      DomReflexive(p.f.g, b);
    } else {
      WalkKeepsEnv(p.f, b, |p.f.code[b]|, Start(p, b), v);
      assert v !in p.phiVars[b];
      if b == p.f.g.Entry() {
        assert false;
      } else {
        StartFromIdom(p, b);
        c := EnvFromStore(p, p.idom[b], v);
        DomTransitive(p.f.g, c, p.idom[b], b);
      }
    }
  }

  // ---------- reaching definitions ----------

  /** Nothing between d (excluded) and q on q's dominator chain defines v. */
  ghost predicate QuietBetween(p: Problem, d: Block, q: Block, v: Value)
    requires p.Analysed()
  {
    forall x :: x in p.f.g.blocks && Dom(p.f.g, x, q) && Dom(p.f.g, d, x) && x != d ==>
      !StoresTo(p.f, x, v) && v !in p.phiVars[x]
  }

  lemma {:induction false} QuietChain(p: Problem, d: Block, q: Block, v: Value)
    requires p.Analysed() && Dom(p.f.g, d, q) && QuietBetween(p, d, q, v)
    requires q in p.f.g.blocks && Reachable(p.f.g, q) && d in p.f.g.blocks && Reachable(p.f.g, d)
    ensures SameDef(End(p, q), End(p, d), v)
    decreases Depth(p.f.g, q)
  {
    if q != d {
      if q == p.f.g.Entry() {
        OnlyEntryDominatesEntry(p.f.g, d);
      } else {
        StartFromIdom(p, q);
        var e := p.idom[q];
        DomReflexive(p.f.g, q);
        WalkKeepsEnv(p.f, q, |p.f.code[q]|, Start(p, q), v);
        forall x | x in p.f.g.blocks && Dom(p.f.g, x, e) && Dom(p.f.g, d, x) && x != d
          ensures !StoresTo(p.f, x, v) && v !in p.phiVars[x]
        {
          DomTransitive(p.f.g, x, e, q);
        }
        QuietChain(p, d, e, v);
      }
    }
  }

  /** A block between a predecessor of y and y's immediate dominator has y in its frontier. */
  lemma BetweenIsFrontier(p: Problem, y: Block, q: Block, x: Block)
    requires p.Analysed() && y in p.f.g.blocks && Reachable(p.f.g, y) && y != p.f.g.Entry() && q in p.f.g.pre[y]
    requires Dom(p.f.g, x, q) && Dom(p.f.g, p.idom[y], x) && x != p.idom[y]
    ensures InFrontier(p.f.g, x, y)
  {
    if SDom(p.f.g, x, y) {
      DomAntisymmetric(p.f.g, x, p.idom[y]);
    }
  }

  lemma BetweenIsQuiet(p: Problem, v: Value, y: Block, q: Block, x: Block)
    requires p.Analysed() && p.PhisPlaced() && y in p.f.g.blocks && Reachable(p.f.g, y) && y != p.f.g.Entry()
    requires q in p.f.g.pre[y] && v !in p.phiVars[y] && x in p.f.g.blocks
    requires Dom(p.f.g, x, q) && Dom(p.f.g, p.idom[y], x) && x != p.idom[y]
    requires p.idom[y] in p.f.g.blocks && Reachable(p.f.g, p.idom[y])
    requires v in p.multi || v in End(p, p.idom[y]).env
    ensures !StoresTo(p.f, x, v) && v !in p.phiVars[x]
  {
    DomReachable(p.f.g, x, q);
    BetweenIsFrontier(p, y, q, x);
    if v !in p.multi && StoresTo(p.f, x, v) {
      var c := EnvFromStore(p, p.idom[y], v);
      DomAntisymmetric(p.f.g, x, p.idom[y]);
    }
  }

  /** At a block with no phi for v, the definition at the end of every
      predecessor is the one at the end of the immediate dominator. For a
      variable stored in one block only, this needs a definition there. */
  lemma ReachingDefinition(p: Problem, v: Value, y: Block, q: Block)
    requires p.Analysed() && p.PhisPlaced() && y in p.f.g.blocks && Reachable(p.f.g, y) && y != p.f.g.Entry()
    requires q in p.f.g.pre[y] && q in p.f.g.blocks && Reachable(p.f.g, q) && v !in p.phiVars[y]
    requires p.idom[y] in p.f.g.blocks && Reachable(p.f.g, p.idom[y])
    requires v in p.multi || v in End(p, p.idom[y]).env
    ensures SameDef(End(p, q), End(p, p.idom[y]), v)
  {
    var d := p.idom[y];
    PredInBlocks(p.f.g, y, q);
    SDomDominatesPred(p.f.g, d, y, q);
    forall x | x in p.f.g.blocks && Dom(p.f.g, x, q) && Dom(p.f.g, d, x) && x != d
      ensures !StoresTo(p.f, x, v) && v !in p.phiVars[x]
    {
      BetweenIsQuiet(p, v, y, q, x);
    }
    QuietChain(p, d, q, v);
  }

  // ---------- which loads find a stack that is not empty ----------

  lemma EntryPathIsTrivial(g: Graph, q: seq<Block>, b: Block)
    requires g.Valid() && PathTo(g, q, b) && g.pre[g.Entry()] == [] && |q| > 1
    ensures b != g.Entry()
  {
    var r := q[|q| - 2];
    assert q[|q| - 2 + 1] in g.succ[r];
    assert r in g.pre[b];
  }

  lemma {:induction false} NoDefinitionNoStore(p: Problem, v: Value, q: seq<Block>, b: Block)
    requires p.Analysed() && p.PhisPlaced() && WellFormed(p.f) && v in p.multi
    requires b in p.f.g.blocks && Reachable(p.f.g, b) && PathTo(p.f.g, q, b) && v !in Start(p, b).env
    ensures !StoredOnPath(p.f, q[..|q| - 1], v)
    decreases |q|
  {
    if |q| > 1 {
      EntryPathIsTrivial(p.f.g, q, b);
      PathLastStep(p.f.g, q, b);
      var r, front := q[|q| - 2], q[..|q| - 1];
      assert Reachable(p.f.g, r);
      StartFromIdom(p, b);
      ReachingDefinition(p, v, b, r);
      WalkKeepsEnv(p.f, r, |p.f.code[r]|, Start(p, r), v);
      NoDefinitionNoStore(p, v, front, r);
      forall k | 0 <= k < |front|
        ensures !StoresTo(p.f, front[k], v)
      {
        if k < |front| - 1 {
          assert front[..|front| - 1][k] == front[k];
        }
      }
    }
  }

  /** A block that every path to it visits before reaching it does not exist. */
  lemma {:induction false} NotBeforeItself(g: Graph, b: Block, q: seq<Block>)
    requires g.Valid() && PathTo(g, q, b)
    ensures exists r :: PathTo(g, r, b) && b !in r[..|r| - 1]
    decreases |q|
  {
    if b in q[..|q| - 1] {
      var k :| 0 <= k < |q| - 1 && q[k] == b;
      PathPrefix(g, q, b, k);
      NotBeforeItself(g, b, q[..k + 1]);
    }
  }

  /** The single storing block of a definitely assigned variable dominates the load. */
  lemma SingleStoreDominates(f: Function, b: Block, i: int, c: Block, v: Value)
    requires f.g.Valid() && DefinitelyAssigned(f) && b in f.code && Reachable(f.g, b)
    requires 0 <= i < |f.code[b]| && f.code[b][i].IsCellLoad() && f.code[b][i].operands[0] == v
    requires !StoresBefore(f, b, i, v) && StoresTo(f, c, v) && forall d :: StoresTo(f, d, v) ==> d == c
    ensures SDom(f.g, c, b)
  {
    forall q | PathTo(f.g, q, b)
      ensures c in q[..|q| - 1]
    {
      assert StoredOnPath(f, q[..|q| - 1], v);
      var k :| 0 <= k < |q[..|q| - 1]| && StoresTo(f, q[..|q| - 1][k], v);
      assert q[..|q| - 1][k] == c;
    }
    forall q | PathTo(f.g, q, b)
      ensures c in q
    {
      assert c in q[..|q| - 1];
    }
    if c == b {
      var q :| PathTo(f.g, q, b);
      NotBeforeItself(f.g, b, q);
    }
  }

  /** A variable stored on every path finds a definition. */
  lemma AssignedIsDefined(f: Function, multi: set<Value>)
    requires f.g.Valid() && DefinitelyAssigned(f)
    requires forall b, c, v :: StoresTo(f, b, v) && StoresTo(f, c, v) && b != c ==> v in multi
    ensures LoadsDefined(f, multi)
  {
    hide StoresTo;
    forall b, i | b in f.code && Reachable(f.g, b) && 0 <= i < |f.code[b]| && f.code[b][i].IsCellLoad()
      ensures FindsDefinition(f, multi, b, i, f.code[b][i].operands[0])
    {
      var v := f.code[b][i].operands[0];
      var q :| PathTo(f.g, q, b);
      if !StoresBefore(f, b, i, v) {
        assert StoredOnPath(f, q[..|q| - 1], v);
        if v !in multi {
          var k :| 0 <= k < |q[..|q| - 1]| && StoresTo(f, q[..|q| - 1][k], v);
          SingleStoreDominates(f, b, i, q[..|q| - 1][k], v);
        }
      }
    }
  }

  /** Every promoted load of a reachable block finds a definition. */
  lemma LoadsCovered(p: Problem, b: Block, i: int)
    requires p.Valid() && b in p.f.g.blocks && Reachable(p.f.g, b)
    requires 0 <= i < |p.f.code[b]| && p.f.code[b][i].IsCellLoad()
    ensures p.f.code[b][i].operands[0] in At(p, b, i).env
  {
    hide PathTo, UsesOk, IdsOk, StoresOk, SDom, Reachable, StoresBefore;
    assert p.Analysed() && WellFormed(p.f) && p.PhisPlaced();
    var v := p.f.code[b][i].operands[0];
    assert FindsDefinition(p.f, p.multi, b, i, v);
    hide Problem.Valid;
    CoveredAt(p, b, i, v);
  }

  /** A variable with a store where FindsDefinition asks for one has a definition. */
  lemma CoveredAt(p: Problem, b: Block, i: int, v: Value)
    requires p.Analysed() && WellFormed(p.f) && p.PhisPlaced() && b in p.f.g.blocks && Reachable(p.f.g, b)
    requires 0 <= i <= |p.f.code[b]| && FindsDefinition(p.f, p.multi, b, i, v)
    ensures v in At(p, b, i).env
  {
    hide WellFormed, Problem.PhisPlaced, Reachable, Dom;
    WalkKeepsEnv(p.f, b, i, Start(p, b), v);
    if v !in At(p, b, i).env {
      if v in p.multi {
        var q :| PathTo(p.f.g, q, b) && StoredOnPath(p.f, q[..|q| - 1], v);
        NoDefinitionNoStore(p, v, q, b);
      } else {
        var c :| StoresTo(p.f, c, v) && SDom(p.f.g, c, b);
        DomReachable(p.f.g, c, b);
        WalkKeepsEnv(p.f, c, |p.f.code[c]|, Start(p, c), v);
        EnvAlongDom(p, c, b, v);
      }
    }
  }

  // ---------- the values held in the renaming state ----------

  /** y survives renaming and dominates position (b, i): a placed phi, or an
      instruction other than a promoted load. */
  ghost predicate Stable(p: Problem, b: Block, i: int, y: Value)
    requires p.Analysed()
  {
    y.IsInstruction() ==>
      if y.Phi?
      then y.at in p.phiVars && y.of in p.phiVars[y.at] && Dom(p.f.g, y.at, b)
      else exists c, j :: DefinedAt(p.f, y, c, j) && !p.f.code[c][j].IsCellLoad() && Before(p.f.g, c, j, b, i)
  }

  /** The kinds of values a store may put into a variable. */
  ghost predicate Storable(y: Value) {
    !y.Alloca? && y != Null
  }

  /** x is the promoted load at some position before (b, i). */
  ghost predicate LoadBefore(p: Problem, b: Block, i: int, x: Value)
    requires p.Analysed()
  {
    exists c, j :: DefinedAt(p.f, x, c, j) && p.f.code[c][j].IsCellLoad() && Before(p.f.g, c, j, b, i)
  }

  /** The state at (b, i) holds stable values only, and replaces exactly the
      promoted loads before (b, i). */
  ghost predicate StateOk(p: Problem, b: Block, i: int, rs: RS)
    requires p.Analysed()
  {
    && (forall v :: v in rs.env ==> Stable(p, b, i, rs.env[v]) && Storable(rs.env[v]))
    && (forall x :: x in rs.sub ==> Stable(p, b, i, rs.sub[x]) && Storable(rs.sub[x]) && x.Inst?)
    && (forall x {:trigger LoadBefore(p, b, i, x)} :: x in rs.sub <==> LoadBefore(p, b, i, x))
  }

  lemma StableLater(p: Problem, b: Block, i: int, k: int, y: Value)
    requires p.Analysed() && i <= k && Stable(p, b, i, y)
    ensures Stable(p, b, k, y)
  {
    if y.IsInstruction() && !y.Phi? {
      var c, j :| DefinedAt(p.f, y, c, j) && !p.f.code[c][j].IsCellLoad() && Before(p.f.g, c, j, b, i);
      assert Before(p.f.g, c, j, b, k);
    }
  }

  lemma StableBelow(p: Problem, d: Block, b: Block, y: Value)
    requires p.Analysed() && SDom(p.f.g, d, b) && d in p.f.code && Stable(p, d, |p.f.code[d]|, y)
    ensures Stable(p, b, 0, y)
  {
    if y.IsInstruction() {
      if y.Phi? {
        DomTransitive(p.f.g, y.at, d, b);
      } else {
        var n := |p.f.code[d]|;
        var c, j :| DefinedAt(p.f, y, c, j) && !p.f.code[c][j].IsCellLoad() && Before(p.f.g, c, j, d, n);
        BeforeBelow(p.f.g, c, j, d, n, b);
      }
    }
  }

  lemma BeforeBelow(g: Graph, c: Block, j: int, d: Block, n: int, b: Block)
    requires g.Valid() && Before(g, c, j, d, n) && SDom(g, d, b)
    ensures Before(g, c, j, b, 0)
  {
    if c != d {
      DomTransitive(g, c, d, b);
      if c == b {
        DomAntisymmetric(g, c, d);
      }
    }
  }

  /** What is before the start of b is before the end of its immediate dominator. */
  lemma LoadBeforeStart(p: Problem, b: Block, x: Value)
    requires p.Analysed() && b in p.f.g.blocks && Reachable(p.f.g, b)
    ensures b == p.f.g.Entry() ==> !LoadBefore(p, b, 0, x)
    ensures b != p.f.g.Entry() ==> p.idom[b] in p.f.code
    ensures b != p.f.g.Entry() ==> (LoadBefore(p, b, 0, x) <==> LoadBefore(p, p.idom[b], |p.f.code[p.idom[b]]|, x))
  {
    hide Reachable;
    if b == p.f.g.Entry() {
      if LoadBefore(p, b, 0, x) {
        var c, j :| DefinedAt(p.f, x, c, j) && p.f.code[c][j].IsCellLoad() && Before(p.f.g, c, j, b, 0);
        OnlyEntryDominatesEntry(p.f.g, c);
      }
    } else {
      StartFromIdom(p, b);
      var d := p.idom[b];
      var n := |p.f.code[d]|;
      if LoadBefore(p, b, 0, x) {
        var c, j :| DefinedAt(p.f, x, c, j) && p.f.code[c][j].IsCellLoad() && Before(p.f.g, c, j, b, 0);
        assert Before(p.f.g, c, j, d, n);
      }
      if LoadBefore(p, d, n, x) {
        var c, j :| DefinedAt(p.f, x, c, j) && p.f.code[c][j].IsCellLoad() && Before(p.f.g, c, j, d, n);
        BeforeBelow(p.f.g, c, j, d, n, b);
      }
    }
  }

  /** Definitions carried over the tree edge to b stay usable. */
  lemma CarriedStable(p: Problem, b: Block, y: Value)
    requires p.Valid() && b in p.f.g.blocks && Reachable(p.f.g, b) && b != p.f.g.Entry()
    requires p.idom[b] in p.f.g.blocks && Reachable(p.f.g, p.idom[b]) && Stable(p, p.idom[b], |p.f.code[p.idom[b]]|, y)
    ensures Stable(p, b, 0, y)
  {
    StableBelow(p, p.idom[b], b, y);
  }

  lemma PhiStable(p: Problem, b: Block, v: Value)
    requires p.Valid() && b in p.f.g.blocks && Reachable(p.f.g, b) && b in p.phiVars && v in p.phiVars[b]
    ensures Stable(p, b, 0, Phi(v, b)) && Storable(Phi(v, b))
  {
    DomReflexive(p.f.g, b);
  }

  lemma StateOkAtStart(p: Problem, b: Block)
    requires p.Valid() && b in p.f.g.blocks && Reachable(p.f.g, b)
    requires b != p.f.g.Entry() ==> p.idom[b] in p.f.g.blocks && Reachable(p.f.g, p.idom[b]) &&
                                    StateOk(p, p.idom[b], |p.f.code[p.idom[b]]|, End(p, p.idom[b]))
    ensures StateOk(p, b, 0, Start(p, b))
  {
    hide Reachable, Stable, Storable, LoadBefore, Problem.Valid, Problem.Analysed, End;
    ProblemFacts(p, b);
    var rs := Start(p, b);
    StartIs(p, b);
    forall v | v in rs.env
      ensures Stable(p, b, 0, rs.env[v]) && Storable(rs.env[v])
    {
      if v in p.phiVars[b] {
        PhiStable(p, b, v);
      } else {
        CarriedStable(p, b, rs.env[v]);
      }
    }
    forall x | x in rs.sub
      ensures Stable(p, b, 0, rs.sub[x]) && Storable(rs.sub[x]) && x.Inst?
    {
      CarriedStable(p, b, rs.sub[x]);
    }
    forall x
      ensures x in rs.sub <==> LoadBefore(p, b, 0, x)
    {
      LoadBeforeStart(p, b, x);
    }
  }

  /** Where a block starts from: nothing at the entry, else the end of its dominator. */
  lemma StartIs(p: Problem, b: Block)
    requires p.Valid() && b in p.f.g.blocks && Reachable(p.f.g, b)
    ensures b in p.phiVars
    ensures b == p.f.g.Entry() ==> Start(p, b) == Enter(p.phiVars[b], b, RS(map[], map[]))
    ensures b != p.f.g.Entry() ==>
      && b in p.idom && p.idom[b] in p.f.g.blocks && Reachable(p.f.g, p.idom[b])
      && Start(p, b) == Enter(p.phiVars[b], b, End(p, p.idom[b]))
  {
    if b != p.f.g.Entry() { StartFromIdom(p, b); }
  }

  /** Operands of a reachable instruction become stable values. */
  lemma OperandStable(p: Problem, b: Block, i: int, rs: RS, x: Value)
    requires p.Valid() && b in p.f.g.blocks && Reachable(p.f.g, b) && 0 <= i <= |p.f.code[b]|
    requires StateOk(p, b, i, rs) && InScope(p.f, b, i, x)
    ensures Stable(p, b, i, Sub(rs.sub, x))
    ensures Storable(x) ==> Storable(Sub(rs.sub, x))
  {
    if x.IsInstruction() && x !in rs.sub {
      var c, j :| DefinedAt(p.f, x, c, j) && Before(p.f.g, c, j, b, i);
      assert !LoadBefore(p, b, i, x);
      assert !p.f.code[c][j].IsCellLoad();
      assert !x.Phi?;
    }
  }

  lemma LoadBeforeNext(p: Problem, b: Block, i: int, x: Value)
    requires p.Analysed() && b in p.f.code && 0 <= i < |p.f.code[b]|
    ensures LoadBefore(p, b, i + 1, x) <==>
            LoadBefore(p, b, i, x) || (p.f.code[b][i].IsCellLoad() && p.f.code[b][i].id == x)
  {
    if LoadBefore(p, b, i + 1, x) {
      var c, j :| DefinedAt(p.f, x, c, j) && p.f.code[c][j].IsCellLoad() && Before(p.f.g, c, j, b, i + 1);
      assert Before(p.f.g, c, j, b, i) || (c == b && j == i);
    }
    if LoadBefore(p, b, i, x) {
      var c, j :| DefinedAt(p.f, x, c, j) && p.f.code[c][j].IsCellLoad() && Before(p.f.g, c, j, b, i);
      assert Before(p.f.g, c, j, b, i + 1);
    }
    if p.f.code[b][i].IsCellLoad() && p.f.code[b][i].id == x {
      assert DefinedAt(p.f, x, b, i) && Before(p.f.g, b, i, b, i + 1);
    }
  }

  lemma StateOkNext(p: Problem, b: Block, i: int, rs: RS)
    requires p.Analysed() && b in p.f.code && 0 <= i < |p.f.code[b]| && StateOk(p, b, i, rs)
    requires var ins := p.f.code[b][i];
             && (ins.IsCellLoad() ==> ins.operands[0] in rs.env && ins.id.Inst?)
             && (ins.IsCellStore() ==>
                 Stable(p, b, i, Sub(rs.sub, ins.operands[0])) && Storable(Sub(rs.sub, ins.operands[0])))
    ensures StateOk(p, b, i + 1, WalkInstr(p.f.code[b][i], rs))
  {
    var ins := p.f.code[b][i];
    var rs' := WalkInstr(ins, rs);
    forall v | v in rs'.env
      ensures Stable(p, b, i + 1, rs'.env[v]) && Storable(rs'.env[v])
    {
      StableLater(p, b, i, i + 1, rs'.env[v]);
    }
    forall x | x in rs'.sub
      ensures Stable(p, b, i + 1, rs'.sub[x]) && Storable(rs'.sub[x]) && x.Inst?
    {
      StableLater(p, b, i, i + 1, rs'.sub[x]);
    }
    forall x
      ensures x in rs'.sub <==> LoadBefore(p, b, i + 1, x)
    {
      LoadBeforeNext(p, b, i, x);
      assert x in rs.sub <==> LoadBefore(p, b, i, x);
    }
  }

  lemma CellAccessFacts(p: Problem, b: Block, i: int, rs: RS)
    requires p.Valid() && b in p.f.g.blocks && Reachable(p.f.g, b) && 0 <= i < |p.f.code[b]| && StateOk(p, b, i, rs)
    ensures var ins := p.f.code[b][i];
            && (ins.IsCellLoad() ==> ins.id.Inst?)
            && (ins.IsCellStore() ==>
                Stable(p, b, i, Sub(rs.sub, ins.operands[0])) && Storable(Sub(rs.sub, ins.operands[0])))
  {
    var ins := p.f.code[b][i];
    if ins.IsCellStore() {
      assert ins.operands[0] in ins.operands;
      OperandStable(p, b, i, rs, ins.operands[0]);
    }
  }

  lemma {:induction false} StateOkAt(p: Problem, b: Block, i: int)
    requires p.Valid() && b in p.f.g.blocks && Reachable(p.f.g, b) && 0 <= i <= |p.f.code[b]|
    ensures StateOk(p, b, i, At(p, b, i))
    decreases Depth(p.f.g, b), i
  {
    hide *;
    ProblemFacts(p, b);
    if i > 0 {
      StateOkAt(p, b, i - 1);
      CellAccessFacts(p, b, i - 1, At(p, b, i - 1));
      if p.f.code[b][i - 1].IsCellLoad() {
        LoadsCovered(p, b, i - 1);
      }
      StateOkNext(p, b, i - 1, At(p, b, i - 1));
      AtNext(p, b, i - 1);
    } else {
      if b != p.f.g.Entry() {
        StartFromIdom(p, b);
        EndIsAt(p, p.idom[b]);
        StateOkAt(p, p.idom[b], |p.f.code[p.idom[b]]|);
      }
      StateOkAtStart(p, b);
      AtStart(p, b);
    }
  }

  lemma ProblemFacts(p: Problem, b: Block)
    requires p.Valid() && b in p.f.g.blocks
    ensures p.Analysed() && p.f.g.Valid() && |p.f.g.blocks| > 0 && b in p.f.code && p.f.g.Entry() in p.f.g.blocks
    ensures forall c :: c in p.f.g.blocks ==> c in p.f.code
  {
  }

  lemma AtStart(p: Problem, b: Block)
    requires p.Analysed() && b in p.f.g.blocks && Reachable(p.f.g, b)
    ensures At(p, b, 0) == Start(p, b)
  {
  }

  lemma EndIsAt(p: Problem, b: Block)
    requires p.Analysed() && b in p.f.g.blocks && Reachable(p.f.g, b)
    ensures b in p.f.code && End(p, b) == At(p, b, |p.f.code[b]|)
  {
  }

  lemma AtNext(p: Problem, b: Block, i: int)
    requires p.Analysed() && b in p.f.g.blocks && Reachable(p.f.g, b) && 0 <= i < |p.f.code[b]|
    ensures At(p, b, i + 1) == WalkInstr(p.f.code[b][i], At(p, b, i))
  {
  }

  /** The replacement of a value in scope is settled when it comes into scope. */
  lemma SubSettled(p: Problem, b: Block, i: int, x: Value)
    requires p.Valid() && b in p.f.g.blocks && Reachable(p.f.g, b) && 0 <= i <= |p.f.code[b]|
    requires InScope(p.f, b, i, x)
    ensures Sub(End(p, b).sub, x) == Sub(At(p, b, i).sub, x)
  {
    var n := |p.f.code[b]|;
    if x.IsInstruction() {
      var c, j :| DefinedAt(p.f, x, c, j) && Before(p.f.g, c, j, b, i);
      forall k | i <= k < n
        ensures p.f.code[b][k].id != x
      {
      }
      WalkKeepsSub(p.f, b, i, n, Start(p, b), x);
    } else {
      StateOkAt(p, b, i);
      StateOkAt(p, b, n);
    }
  }

  /** A value in scope at the start of b has the replacement it had at the end
      of any predecessor of b. */
  lemma NamedOnce(p: Problem, c: Block, j: int, d: Block, x: Value)
    requires p.Valid() && DefinedAt(p.f, x, c, j) && d != c && d in p.f.code
    ensures forall k :: 0 <= k < |p.f.code[d]| ==> p.f.code[d][k].id != x
  {
    hide Problem.Analysed, LoadsDefined, Problem.PhisPlaced, Reachable;
  }

  lemma {:induction false} SubFromDefinition(p: Problem, c: Block, j: int, b: Block, x: Value)
    requires p.Valid() && b in p.f.g.blocks && Reachable(p.f.g, b) && c in p.f.g.blocks && Reachable(p.f.g, c)
    requires DefinedAt(p.f, x, c, j) && SDom(p.f.g, c, b)
    ensures SameSub(Start(p, b).sub, End(p, c).sub, x)
    decreases Depth(p.f.g, b)
  {
    hide Reachable, WellFormed, LoadsDefined, Problem.PhisPlaced;
    if b == p.f.g.Entry() {
      OnlyEntryDominatesEntry(p.f.g, c);
    } else {
      StartFromIdom(p, b);
      var d := p.idom[b];
      if d != c {
        SubFromDefinition(p, c, j, d, x);
        NamedOnce(p, c, j, d, x);
        WalkKeepsSub(p.f, d, 0, |p.f.code[d]|, Start(p, d), x);
      }
    }
  }

  lemma NotReplaced(p: Problem, b: Block, i: int, x: Value)
    requires p.Valid() && b in p.f.g.blocks && Reachable(p.f.g, b) && 0 <= i <= |p.f.code[b]|
    requires !x.IsInstruction()
    ensures Sub(At(p, b, i).sub, x) == x
  {
    StateOkAt(p, b, i);
  }

  lemma DefinitionInScope(p: Problem, c: Block, j: int, b: Block, q: Block, x: Value)
    requires p.Valid() && Reachable(p.f.g, b) && b in p.f.g.blocks && q in p.f.g.pre[b] && Reachable(p.f.g, q)
    requires DefinedAt(p.f, x, c, j) && SDom(p.f.g, c, b)
    ensures c in p.f.g.blocks && Reachable(p.f.g, c) && q in p.f.code
    ensures Before(p.f.g, c, j, q, |p.f.code[q]| - 1)
  {
    PredInBlocks(p.f.g, b, q);
    SDomDominatesPred(p.f.g, c, b, q);
    DomReachable(p.f.g, c, b);
  }

  lemma SubFromPred(p: Problem, c: Block, j: int, b: Block, q: Block, x: Value)
    requires p.Valid() && b in p.f.g.blocks && Reachable(p.f.g, b) && q in p.f.g.blocks && Reachable(p.f.g, q)
    requires c in p.f.g.blocks && Reachable(p.f.g, c)
    requires DefinedAt(p.f, x, c, j) && SDom(p.f.g, c, b) && (c == q || SDom(p.f.g, c, q))
    ensures SameSub(Start(p, b).sub, End(p, q).sub, x)
  {
    hide Reachable;
    SubFromDefinition(p, c, j, b, x);
    if c != q {
      SubFromDefinition(p, c, j, q, x);
      WalkKeepsSub(p.f, q, 0, |p.f.code[q]|, Start(p, q), x);
    }
  }

  /** What is in scope at the start of b is in scope at the terminator of every
      predecessor, with the same replacement. */
  lemma ScopeFromPred(p: Problem, b: Block, q: Block, x: Value)
    requires p.Valid() && b in p.f.g.blocks && Reachable(p.f.g, b) && q in p.f.g.pre[b]
    requires q in p.f.g.blocks && Reachable(p.f.g, q) && InScope(p.f, b, 0, x)
    ensures InScope(p.f, q, |p.f.code[q]| - 1, x)
    ensures Sub(Start(p, b).sub, x) == Sub(End(p, q).sub, x)
  {
    hide Reachable, Problem.Valid, Problem.Analysed, End, Start;
    ProblemFacts(p, b);
    if x.IsInstruction() {
      var c, j :| DefinedAt(p.f, x, c, j) && Before(p.f.g, c, j, b, 0);
      DefinitionInScope(p, c, j, b, q, x);
      SubFromPred(p, c, j, b, q, x);
    } else {
      AtStart(p, b);
      EndIsAt(p, q);
      NotReplaced(p, b, 0, x);
      NotReplaced(p, q, |p.f.code[q]|, x);
    }
  }

  // ---------- blank phis are never a definition ----------

  ghost predicate NoBlank(rs: RS) {
    && (forall v :: v in rs.env ==> !rs.env[v].IsBlank())
    && (forall x :: x in rs.sub ==> !rs.sub[x].IsBlank())
  }

  /** No operand of the original function is a phi. */
  lemma OperandNoPhi(p: Problem, b: Block, i: int, k: int)
    requires p.Valid() && b in p.f.g.blocks && Reachable(p.f.g, b) && b in p.f.code && 0 <= i < |p.f.code[b]|
    requires 0 <= k < |p.f.code[b][i].operands|
    ensures !p.f.code[b][i].operands[k].Phi?
  {
    var x := p.f.code[b][i].operands[k];
    assert x in p.f.code[b][i].operands;
    assert InScope(p.f, b, i, x);
  }

  lemma StepNoBlank(ins: Instr, rs: RS)
    requires NoBlank(rs) && (ins.IsCellStore() ==> !ins.operands[0].IsBlank())
    ensures NoBlank(WalkInstr(ins, rs))
  {
  }

  lemma EmptyNoBlank()
    ensures NoBlank(RS(map[], map[]))
  {
  }

  lemma EnterNoBlank(vars: set<Value>, b: Block, rs: RS)
    requires NoBlank(rs) && Null !in vars
    ensures NoBlank(Enter(vars, b, rs))
  {
  }

  lemma BlankNotPlaced(p: Problem, b: Block)
    requires p.Valid() && b in p.phiVars
    ensures Null !in p.phiVars[b]
  {
    assert forall v :: v in p.phiVars[b] ==> v.Alloca?;
  }

  lemma EntryStart(p: Problem)
    requires p.Analysed() && p.f.g.Entry() in p.f.g.blocks && Reachable(p.f.g, p.f.g.Entry())
    ensures p.f.g.Entry() in p.phiVars
        && Start(p, p.f.g.Entry()) == Enter(p.phiVars[p.f.g.Entry()], p.f.g.Entry(), RS(map[], map[]))
  {
  }

  /** What a store leaves in a variable, and what replaces a load, is never blank. */
  lemma {:induction false} NoBlankAt(p: Problem, b: Block, i: int)
    requires p.Valid() && b in p.f.g.blocks && Reachable(p.f.g, b) && b in p.f.code && 0 <= i <= |p.f.code[b]|
    ensures NoBlank(At(p, b, i))
    decreases Depth(p.f.g, b), i
  {
    hide *;
    ProblemFacts(p, b);
    if i > 0 {
      NoBlankAt(p, b, i - 1);
      AtNext(p, b, i - 1);
      StoredNotBlank(p, b, i - 1);
      StepNoBlank(p.f.code[b][i - 1], At(p, b, i - 1));
    } else {
      AtStart(p, b);
      BlankNotPlaced(p, b);
      if b == p.f.g.Entry() {
        EntryStart(p);
        EmptyNoBlank();
        EnterNoBlank(p.phiVars[b], b, RS(map[], map[]));
      } else {
        StartFromIdom(p, b);
        EndIsAt(p, p.idom[b]);
        NoBlankAt(p, p.idom[b], |p.f.code[p.idom[b]]|);
        EnterNoBlank(p.phiVars[b], b, End(p, p.idom[b]));
      }
    }
  }

  lemma StoredNotBlank(p: Problem, b: Block, i: int)
    requires p.Valid() && b in p.f.g.blocks && Reachable(p.f.g, b) && b in p.f.code && 0 <= i < |p.f.code[b]|
    ensures p.f.code[b][i].IsCellStore() ==> !p.f.code[b][i].operands[0].IsBlank()
  {
    hide Problem.Valid, Reachable;
    if p.f.code[b][i].IsCellStore() { OperandNoPhi(p, b, i, 0); }
  }
}
