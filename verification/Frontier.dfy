/** What the runner walks of the frontier computation collect, related to
    dominance frontiers as paths define them. */
module Frontier {
  import opened Cfg
  import opened DomTree

  /** The analysis result for one function: the settled tree. */
  ghost predicate Analysed(g: Graph, t: Tree) {
    && g.Valid() && t.Valid() && Numbered(g, t) && Fixpoint(g, t)
    && (forall b :: b in g.blocks ==> b in t.idom)
    && (forall b :: b in g.blocks && b !in t.node ==> t.idom[b] == NULL)
  }

  /** x has been visited by the walk from p once the runner stands at r. */
  ghost predicate WalkedTo(t: Tree, b: Block, p: Block, r: Block, x: Block)
    requires t.Valid()
  {
    if b in t.node
    then p in t.node && x in t.node && r in t.node && t.Anc(x, p) && t.node[x] < t.node[r]
    else x == p && r == NULL
  }

  /** The walk from predecessor p of b visits x before it stops at b's link. */
  ghost predicate Visits(t: Tree, b: Block, p: Block, x: Block)
    requires t.Valid() && b in t.idom
  {
    WalkedTo(t, b, p, t.idom[b], x)
  }

  ghost predicate VisitedFrom(t: Tree, b: Block, ps: seq<Block>, x: Block)
    requires t.Valid() && b in t.idom
  {
    exists p :: p in ps && Visits(t, b, p, x)
  }

  /** The pair the algorithm records: y is a join and some walk for y visits x. */
  ghost predicate Recorded(g: Graph, t: Tree, x: Block, y: Block)
    requires g.Valid() && t.Valid() && y in g.blocks && y in t.idom
  {
    |g.pre[y]| >= 2 && VisitedFrom(t, y, g.pre[y], x)
  }

  lemma LinkAbovePreds(g: Graph, t: Tree, b: Block, p: Block)
    requires Analysed(g, t) && b in t.node && p in g.pre[b] && p in t.node
    ensures b in g.blocks && t.idom[b] in t.node && t.Anc(t.idom[b], p)
  {
    if b == t.entry {
      EntryIsRoot(t, p);
    } else {
      assert Settled(g, t, b);
    }
  }

  /** One step of the walk for a reachable join. */
  lemma WalkStep(g: Graph, t: Tree, b: Block, p: Block, r: Block)
    requires Analysed(g, t) && b in t.node && p in g.pre[b] && p in t.node
    requires r in t.node && t.Anc(r, p) && t.Anc(t.idom[b], r) && r != t.idom[b]
    ensures r != t.entry && t.idom[r] in t.node && t.node[t.idom[r]] > t.node[r]
    ensures t.Anc(t.idom[r], p) && t.Anc(t.idom[b], t.idom[r])
    ensures forall x :: WalkedTo(t, b, p, t.idom[r], x) <==> WalkedTo(t, b, p, r, x) || x == r
  {
    AncHigher(t, t.idom[b], r);
    AncTransitive(t, t.idom[r], r, p);
    forall x
      ensures WalkedTo(t, b, p, t.idom[r], x) <==> WalkedTo(t, b, p, r, x) || x == r
    {
      if x in t.node && t.Anc(x, p) && t.node[r] <= t.node[x] < t.node[t.idom[r]] && x != r {
        AncLinear(t, r, x, p);
        AncHigher(t, x, t.idom[r]);
      }
    }
  }

  lemma VisitIsFrontier(g: Graph, t: Tree, x: Block, y: Block, p: Block)
    requires Analysed(g, t) && y in t.node && y != t.entry
    requires p in g.pre[y] && Visits(t, y, p, x)
    ensures InFrontier(g, x, y)
  {
    AncIffDom(g, t, x, p);
    AncIffDom(g, t, x, y);
    if t.Anc(x, y) && x != y {
      AncHigher(t, x, t.idom[y]);
    }
  }

  lemma FrontierIsVisited(g: Graph, t: Tree, x: Block, y: Block, p: Block)
    requires Analysed(g, t) && y in t.node && y != t.entry
    requires p in g.pre[y] && Dom(g, x, p) && !SDom(g, x, y)
    ensures Visits(t, y, p, x)
  {
    DomReachable(g, x, p);
    AncIffDom(g, t, x, p);
    LinkAbovePreds(g, t, y, p);
    AncHigher(t, t.idom[y], p);
    if t.node[x] >= t.node[t.idom[y]] {
      AncIffDom(g, t, x, y);
      AncLinear(t, t.idom[y], x, p);
    }
  }

  /** For a join other than the entry, the recorded pairs are exactly the
      dominance frontier. */
  lemma VisitsAreFrontier(g: Graph, t: Tree, x: Block, y: Block)
    requires Analysed(g, t) && PredsReachable(g)
    requires y in t.node && y != t.entry
    ensures VisitedFrom(t, y, g.pre[y], x) <==> InFrontier(g, x, y)
  {
    if VisitedFrom(t, y, g.pre[y], x) {
      var p :| p in g.pre[y] && Visits(t, y, p, x);
      VisitIsFrontier(g, t, x, y, p);
    }
    if InFrontier(g, x, y) {
      var p :| p in g.pre[y] && Dom(g, x, p);
      FrontierIsVisited(g, t, x, y, p);
    }
  }

  /** With fewer than two predecessors a block other than the entry is in no frontier. */
  lemma NoFrontierWithoutJoin(g: Graph, x: Block, y: Block)
    requires g.Valid() && y in g.blocks && y != g.Entry() && |g.pre[y]| < 2
    ensures !InFrontier(g, x, y)
  {
    if InFrontier(g, x, y) {
      var p :| p in g.pre[y] && Dom(g, x, p);
      PredInBlocks(g, y, p);
      DomReachable(g, x, p);
      SuccReachable(g, p, y);
      assert g.pre[y] == [p];
      if x == y {
        SelfLoopUnreachable(g, y);
      } else {
        DomFromPreds(g, x, y);
      }
    }
  }

  /** A block other than the entry whose only predecessor is itself is unreachable. */
  lemma {:induction false} SelfLoopUnreachable(g: Graph, y: Block)
    requires g.Valid() && y in g.blocks && y != g.Entry()
    requires forall p :: p in g.pre[y] ==> Dom(g, y, p)
    ensures !Reachable(g, y)
  {
    if Reachable(g, y) {
      var p :| PathTo(g, p, y);
      EveryPathHasShorter(g, p, y);
    }
  }

  lemma {:induction false} EveryPathHasShorter(g: Graph, p: seq<Block>, y: Block)
    requires g.Valid() && y != g.Entry() && y in g.blocks && PathTo(g, p, y)
    requires forall q :: q in g.pre[y] ==> Dom(g, y, q)
    ensures false
    decreases |p|
  {
    PathLastStep(g, p, y);
    var q := p[|p| - 2];
    var front := p[..|p| - 1];
    assert y in front;
    var i :| 0 <= i < |front| && front[i] == y;
    PathPrefix(g, front, q, i);
    EveryPathHasShorter(g, front[..i + 1], y);
  }

  /** For every block but the entry, recorded pairs and the frontier agree. */
  lemma RecordedIffFrontier(g: Graph, t: Tree, x: Block, y: Block)
    requires Analysed(g, t) && PredsReachable(g) && y in t.node && y != t.entry
    ensures y in g.blocks && (Recorded(g, t, x, y) <==> InFrontier(g, x, y))
  {
    if |g.pre[y]| >= 2 {
      VisitsAreFrontier(g, t, x, y);
    } else {
      NoFrontierWithoutJoin(g, x, y);
    }
  }

  /** The pairs recorded for reachable blocks are the dominance frontiers
      exactly when no reachable block jumps back to the entry. */
  lemma FrontiersExactIff(g: Graph, t: Tree)
    requires Analysed(g, t) && PredsReachable(g)
    ensures (forall x, y :: x in t.node && y in t.node ==> (Recorded(g, t, x, y) <==> InFrontier(g, x, y)))
            <==> (forall p :: p in g.pre[g.Entry()] ==> !Reachable(g, p))
  {
    var e := g.Entry();
    assert e in g.blocks;
    EntryReachable(g);
    if p :| p in g.pre[e] && Reachable(g, p) {
      EntryDominates(g, p);
      assert InFrontier(g, e, e);
      assert t.idom[e] == e;
      assert !Recorded(g, t, e, e);
    } else {
      forall x, y | x in t.node && y in t.node
        ensures Recorded(g, t, x, y) <==> InFrontier(g, x, y)
      {
        if y == e {
          assert forall p :: p !in g.pre[e];
        } else {
          RecordedIffFrontier(g, t, x, y);
        }
      }
    }
  }

  // ---------- when the runner walk ends ----------

  /** The runner after n steps; reading the link of the null block gives null. */
  ghost function RunnerAfter(t: Tree, p: Block, n: nat): Block {
    if n == 0 then p
    else
      var r := RunnerAfter(t, p, n - 1);
      if r in t.idom then t.idom[r] else NULL
  }

  lemma {:induction false} LostRunner(g: Graph, t: Tree, p: Block, n: nat)
    requires Analysed(g, t) && p in g.blocks && p !in t.node && NULL !in t.idom
    ensures RunnerAfter(t, p, n) == if n == 0 then p else NULL
  {
    if n > 0 {
      LostRunner(g, t, p, n - 1);
    }
  }

  lemma {:induction false} RunnerClimbs(g: Graph, t: Tree, b: Block, p: Block, n: nat) returns (m: nat)
    requires Analysed(g, t) && b in t.node && p in g.pre[b] && p in t.node
    requires RunnerAfter(t, p, n) in t.node
    requires t.Anc(RunnerAfter(t, p, n), p) && t.Anc(t.idom[b], RunnerAfter(t, p, n))
    ensures RunnerAfter(t, p, m) == t.idom[b]
    decreases t.node[t.entry] - t.node[RunnerAfter(t, p, n)]
  {
    var r := RunnerAfter(t, p, n);
    if r == t.idom[b] {
      m := n;
    } else {
      WalkStep(g, t, b, p, r);
      assert RunnerAfter(t, p, n + 1) == t.idom[r];
      m := RunnerClimbs(g, t, b, p, n + 1);
    }
  }

  /** The walk from predecessor p towards the link of b stops if and only if p
      is reachable or b is not. */
  lemma WalkEndsIff(g: Graph, t: Tree, b: Block, p: Block)
    requires Analysed(g, t) && b in g.blocks && p in g.pre[b] && NULL !in t.idom
    ensures (exists n :: RunnerAfter(t, p, n) == t.idom[b]) <==> (Reachable(g, b) ==> Reachable(g, p))
  {
    PredInBlocks(g, b, p);
    if Reachable(g, b) && Reachable(g, p) {
      LinkAbovePreds(g, t, b, p);
      var m := RunnerClimbs(g, t, b, p, 0);
    } else if Reachable(g, b) {
      forall n: nat
        ensures RunnerAfter(t, p, n) != t.idom[b]
      {
        LostRunner(g, t, p, n);
        if b != t.entry {
          assert t.idom[b] in t.node;
        }
      }
    } else if Reachable(g, p) {
      SuccReachable(g, p, b);
    } else {
      LostRunner(g, t, p, 1);
    }
  }

  // ---------- the result, in terms of paths only ----------

  /** The recorded frontier: the dominance frontier, except that the entry
      block is recorded only as a join and never for itself. */
  ghost predicate InRecordedFrontier(g: Graph, x: Block, y: Block)
    requires g.Valid() && y in g.blocks
  {
    if y == g.Entry()
    then |g.pre[y]| >= 2 && x != y && exists p :: p in g.pre[y] && Dom(g, x, p)
    else InFrontier(g, x, y)
  }

  lemma RecordedInPaths(g: Graph, t: Tree, x: Block, y: Block)
    requires Analysed(g, t) && PredsReachable(g) && x in t.node && y in g.blocks
    ensures Recorded(g, t, x, y) <==> InRecordedFrontier(g, x, y)
  {
    if y == g.Entry() {
      EntryReachable(g);
      forall p | p in g.pre[y]
        ensures Visits(t, y, p, x) <==> (Dom(g, x, p) && x != y)
      {
        assert Reachable(g, p);
        AncIffDom(g, t, x, p);
      }
    } else if y in t.node {
      RecordedIffFrontier(g, t, x, y);
    } else {
      forall p | p in g.pre[y]
        ensures !Dom(g, x, p) && !Visits(t, y, p, x)
      {
        PredInBlocks(g, y, p);
        if Reachable(g, p) {
          SuccReachable(g, p, y);
        }
      }
    }
  }

  lemma RecordedOnlyUnreachable(g: Graph, t: Tree, x: Block, y: Block)
    requires Analysed(g, t) && PredsReachable(g) && x !in t.node && y in g.blocks && Recorded(g, t, x, y)
    ensures !Reachable(g, y)
  {
    var p :| p in g.pre[y] && Visits(t, y, p, x);
    assert y !in t.node;
  }

  /** With no predecessor at the entry, the recorded frontier is the dominance frontier. */
  lemma RecordedIsFrontier(g: Graph, x: Block, y: Block)
    requires g.Valid() && y in g.blocks && g.pre[g.Entry()] == []
    ensures InRecordedFrontier(g, x, y) <==> InFrontier(g, x, y)
  {
  }

  /** The three tables hold the dominator analysis of g. */
  ghost predicate Tables(g: Graph, idom: map<Block, Block>, frontier: map<Block, set<Block>>,
          treeSucc: map<Block, set<Block>>)
  {
    && g.Valid()
    && (forall b :: b in g.blocks ==> b in idom && b in frontier && b in treeSucc)
    && idom[g.Entry()] == g.Entry()
    && (forall b :: b in g.blocks && Reachable(g, b) && b != g.Entry() ==> IDom(g, idom[b], b))
    && (forall b :: b in g.blocks && !Reachable(g, b) ==> idom[b] == NULL)
    && (forall x, y :: x in g.blocks && Reachable(g, x) ==>
          (y in frontier[x] <==> y in g.blocks && InRecordedFrontier(g, x, y)))
    && (forall x, y :: x in g.blocks && !Reachable(g, x) && y in frontier[x] ==> y in g.blocks && !Reachable(g, y))
    && (forall x, b :: x in g.blocks ==>
          (b in treeSucc[x] <==> b in g.blocks && b != x && idom[b] == x))
  }
}
