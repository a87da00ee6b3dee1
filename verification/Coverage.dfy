/** Exactly which promoted loads find a definition when the renaming walk comes to
    them. */
module Coverage {
  import opened Cfg
  import opened Ir
  import opened Renaming
  import opened PhiPlacement
  import opened Mem2Reg

  // ---------- stores on paths ----------

  /** Some path to b stores the variable, in b or before. */
  ghost predicate StoredReaching(f: Function, b: Block, v: Value)
    requires f.g.Valid()
  {
    exists q :: PathTo(f.g, q, b) && StoredOnPath(f, q, v)
  }

  lemma StoredBefore(f: Function, b: Block, v: Value)
    requires f.g.Valid() && SomePathStores(f, b, v)
    ensures StoredReaching(f, b, v)
  {
    hide StoresTo;
    var q :| PathTo(f.g, q, b) && StoredOnPath(f, q[..|q| - 1], v);
    var k :| 0 <= k < |q| - 1 && StoresTo(f, q[..|q| - 1][k], v);
    assert q[..|q| - 1][k] == q[k];
  }

  lemma StoredHere(f: Function, b: Block, v: Value)
    requires f.g.Valid() && Reachable(f.g, b) && StoresTo(f, b, v)
    ensures StoredReaching(f, b, v)
  {
    hide StoresTo;
    var q :| PathTo(f.g, q, b);
    assert q[|q| - 1] == b;
  }

  /** A store that reaches a strict dominator of b comes before b on some path. */
  lemma StoredThrough(f: Function, d: Block, b: Block, v: Value)
    requires f.g.Valid() && Reachable(f.g, b) && SDom(f.g, d, b) && StoredReaching(f, d, v)
    ensures SomePathStores(f, b, v)
  {
    hide StoredOnPath;
    var q :| PathTo(f.g, q, d) && StoredOnPath(f, q, v);
    var p :| PathTo(f.g, p, b);
    var i :| 0 <= i < |p| && p[i] == d;
    PathJoin(f.g, q, d, p, b, i);
    assert p[|p| - 1] == b;
    StoredInFront(f, q, p[i + 1..], v);
  }

  lemma StoredInFront(f: Function, q: seq<Block>, rest: seq<Block>, v: Value)
    requires StoredOnPath(f, q, v) && |rest| > 0
    ensures StoredOnPath(f, (q + rest)[..|q + rest| - 1], v)
  {
    hide StoresTo;
    var k :| 0 <= k < |q| && StoresTo(f, q[k], v);
    assert (q + rest)[..|q + rest| - 1][k] == q[k];
  }

  /** A store that reaches a predecessor comes before the block. */
  lemma StoredInPred(f: Function, r: Block, y: Block, v: Value)
    requires f.g.Valid() && r in f.g.succ && y in f.g.succ[r] && StoredReaching(f, r, v)
    ensures SomePathStores(f, y, v)
  {
    hide StoresTo;
    var q :| PathTo(f.g, q, r) && StoredOnPath(f, q, v);
    PathExtend(f.g, q, r, y);
    assert (q + [y])[..|q + [y]| - 1] == q;
  }

  /** A store comes before every block of its frontier. */
  lemma StoredAtFrontier(f: Function, x: Block, y: Block, v: Value)
    requires f.g.Valid() && InFrontier(f.g, x, y) && StoredReaching(f, x, v)
    ensures SomePathStores(f, y, v)
  {
    hide StoredOnPath, SomePathStores, StoredReaching;
    var r :| r in f.g.pre[y] && Dom(f.g, x, r);
    PredInBlocks(f.g, y, r);
    DomReachable(f.g, x, r);
    if x != r {
      StoredThrough(f, x, r, v);
      StoredBefore(f, r, v);
    }
    StoredInPred(f, r, y, v);
  }

  lemma {:induction false} StoredAtIDF(f: Function, v: Value, xs: seq<Block>, y: Block)
    requires f.g.Valid() && FrontierChain(f.g, StoreBlocks(f, v), xs, y)
    ensures SomePathStores(f, y, v)
    decreases |xs|
  {
    hide StoredOnPath, SomePathStores, StoredReaching, StoresTo, InFrontier, Reachable;
    var n := |xs| - 2;
    var x := xs[n];
    assert InFrontier(f.g, xs[n], xs[n + 1]);
    if n == 0 {
      FrontierReachable(f.g, x, y);
      StoredHere(f, x, v);
    } else {
      var front := xs[..n + 1];
      forall i | 0 <= i < |front| - 1 ensures InFrontier(f.g, front[i], front[i + 1]) {
        assert front[i] == xs[i] && front[i + 1] == xs[i + 1];
      }
      StoredAtIDF(f, v, front, x);
      StoredBefore(f, x, v);
    }
    StoredAtFrontier(f, x, y, v);
  }

  lemma FrontierReachable(g: Graph, x: Block, y: Block)
    requires g.Valid() && InFrontier(g, x, y)
    ensures Reachable(g, x)
  {
    var r :| r in g.pre[y] && Dom(g, x, r);
    DomReachable(g, x, r);
  }

  // ---------- where definitions come from ----------

  ghost predicate Placed(p: Problem) {
    p.Analysed() && WellFormed(p.f) && PhisExact(p.f, p.phiVars) && p.multi == MultiVars(p.f)
  }

  /** Where a definition at the start of b comes from. */
  ghost predicate FromStore(p: Problem, b: Block, v: Value)
    requires p.f.g.Valid()
  {
    if v in p.multi then SomePathStores(p.f, b, v) else DominatorStores(p.f, b, v)
  }

  lemma PhiFromStore(p: Problem, b: Block, v: Value)
    requires Placed(p) && b in p.f.g.blocks && Reachable(p.f.g, b) && b in p.phiVars && v in p.phiVars[b]
    ensures FromStore(p, b, v)
  {
    hide SomePathStores, DominatorStores, Reachable, IsMulti, StoreBlocks, WellFormed, Problem.Analysed;
    MultiIsMulti(p.f, v);
    assert InIDF(p.f.g, StoreBlocks(p.f, v), b);
    var xs :| FrontierChain(p.f.g, StoreBlocks(p.f, v), xs, b);
    StoredAtIDF(p.f, v, xs, b);
  }

  lemma BelowDominator(p: Problem, d: Block, b: Block, v: Value)
    requires p.f.g.Valid() && Reachable(p.f.g, d) && Reachable(p.f.g, b) && SDom(p.f.g, d, b)
    requires StoresTo(p.f, d, v) || FromStore(p, d, v)
    ensures FromStore(p, b, v)
  {
    hide StoresTo, SomePathStores, Reachable;
    if v in p.multi {
      if StoresTo(p.f, d, v) { StoredHere(p.f, d, v); } else { StoredBefore(p.f, d, v); }
      StoredThrough(p.f, d, b, v);
    } else if !StoresTo(p.f, d, v) {
      var c :| StoresTo(p.f, c, v) && SDom(p.f.g, c, d);
      DomTransitive(p.f.g, c, d, b);
      if c == b { DomAntisymmetric(p.f.g, b, d); }
    }
  }

  lemma {:induction false} StartFromStore(p: Problem, b: Block, v: Value)
    requires Placed(p) && b in p.f.g.blocks && Reachable(p.f.g, b) && v in Start(p, b).env
    ensures FromStore(p, b, v)
    decreases Depth(p.f.g, b)
  {
    hide FromStore, Reachable, PhisExact, WellFormed, MultiVars, StoresTo, StoresBefore;
    PlacedFacts(p, b);
    if b == p.f.g.Entry() {
      NoPhiAtEntry(p.f, p.phiVars, v);
      assert false;
    } else {
      StartFromIdom(p, b);
      var d := p.idom[b];
      if v in p.phiVars[b] {
        PhiFromStore(p, b, v);
      } else {
        KeptOrStored(p, d, v);
        if !StoresTo(p.f, d, v) { StartFromStore(p, d, v); }
        BelowDominator(p, d, b, v);
      }
    }
  }

  lemma PlacedFacts(p: Problem, b: Block)
    requires Placed(p) && b in p.f.g.blocks
    ensures WellFormed(p.f) && p.f.g.Valid() && p.f.g.Entry() in p.phiVars && b in p.phiVars && b in p.f.code
  {
    EntryInBlocks(p.f.g);
  }

  lemma KeptOrStored(p: Problem, d: Block, v: Value)
    requires p.Analysed() && d in p.f.g.blocks && Reachable(p.f.g, d) && v in End(p, d).env
    ensures StoresTo(p.f, d, v) || v in Start(p, d).env
  {
    hide Reachable, Start;
    WalkKeepsEnv(p.f, d, |p.f.code[d]|, Start(p, d), v);
  }

  /** The walk finds a definition of v at (b, i) exactly when there is a store where
      FindsDefinition asks for one. */
  lemma FindsIff(p: Problem, b: Block, i: int, v: Value)
    requires Placed(p) && b in p.f.g.blocks && Reachable(p.f.g, b) && b in p.f.code && 0 <= i <= |p.f.code[b]|
    ensures v in At(p, b, i).env <==> FindsDefinition(p.f, p.multi, b, i, v)
  {
    hide Reachable, PhisExact, WellFormed, MultiVars, StoresBefore, Problem.PhisPlaced, Start, SomePathStores,
        DominatorStores;
    PhisArePlaced(p.f, p);
    if FindsDefinition(p.f, p.multi, b, i, v) {
      CoveredAt(p, b, i, v);
    } else if v in At(p, b, i).env {
      WalkKeepsEnv(p.f, b, i, Start(p, b), v);
      StartFromStore(p, b, v);
    }
  }

  /** No stack is read empty and no load outlives its stores exactly when every
      promoted load of a reachable block has a store before it in its block, or, for
      a variable stored in several blocks, before the block on some path, or, for a
      variable stored in one, in a dominator of the block. */
  lemma LoadsFindIff(p: Problem)
    requires Placed(p)
    ensures (forall b, i ::
        b in p.f.g.blocks && Reachable(p.f.g, b) && 0 <= i < |p.f.code[b]| && p.f.code[b][i].IsCellLoad() ==>
              p.f.code[b][i].operands[0] in At(p, b, i).env)
       <==> LoadsDefined(p.f, MultiVars(p.f))
  {
    CodeIsBlocks(p);
    hide Reachable, PhisExact, WellFormed, MultiVars, FindsDefinition, At;
    forall b, i | b in p.f.g.blocks && Reachable(p.f.g, b) && 0 <= i < |p.f.code[b]| && p.f.code[b][i].IsCellLoad()
      ensures p.f.code[b][i].operands[0] in At(p, b, i).env <==>
          FindsDefinition(p.f, p.multi, b, i, p.f.code[b][i].operands[0])
    {
      FindsIff(p, b, i, p.f.code[b][i].operands[0]);
    }
  }

  lemma CodeIsBlocks(p: Problem)
    requires Placed(p)
    ensures forall b :: b in p.f.code <==> b in p.f.g.blocks
  {
  }

  /** A store on every path to each load is more than enough. */
  lemma AssignedIsEnough(f: Function)
    requires f.g.Valid() && DefinitelyAssigned(f)
    ensures LoadsDefined(f, MultiVars(f))
  {
    hide DefinitelyAssigned, LoadsDefined, MultiVars, StoresTo;
    forall b, c, v | StoresTo(f, b, v) && StoresTo(f, c, v) && b != c ensures v in MultiVars(f) {
      TwoStores(f, b, c, v);
      MultiIsMulti(f, v);
    }
    AssignedIsDefined(f, MultiVars(f));
  }
}
