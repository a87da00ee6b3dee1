/** Control flow graphs with mirrored predecessor and successor lists, paths
    from the entry block, and dominance defined by those paths. */
module Cfg {

  /** A block is identified by its address; NULL is the null pointer. */
  type Block = int

  const NULL: Block := -1

  /** The blocks of one function in list order (the entry block comes first). */
  datatype Graph = Graph(blocks: seq<Block>, succ: map<Block, seq<Block>>, pre: map<Block, seq<Block>>) {

    ghost predicate Valid() {
      && |blocks| > 0
      && NULL !in blocks
      && (forall i, j :: 0 <= i < j < |blocks| ==> blocks[i] != blocks[j])
      && (forall b :: b in succ <==> b in blocks)
      && (forall b :: b in pre <==> b in blocks)
      && (forall b, s :: b in blocks && s in succ[b] ==> s in blocks)
      && (forall b, p :: b in blocks && p in pre[b] ==> p in blocks)
      && (forall b, s {:trigger s in succ[b]} {:trigger b in pre[s]} ::
            b in blocks && s in blocks ==> (s in succ[b] <==> b in pre[s]))
    }

    function Entry(): Block
      requires |blocks| > 0
    {
      blocks[0]
    }
  }

  /** p is a walk from the entry block to b along successor edges. */
  ghost predicate PathTo(g: Graph, p: seq<Block>, b: Block)
    requires g.Valid()
  {
    && |p| > 0
    && p[0] == g.Entry()
    && p[|p| - 1] == b
    && (forall i :: 0 <= i < |p| ==> p[i] in g.blocks)
    && (forall i :: 0 <= i < |p| - 1 ==> p[i + 1] in g.succ[p[i]])
  }

  ghost predicate Reachable(g: Graph, b: Block)
    requires g.Valid()
  {
    exists p :: PathTo(g, p, b)
  }

  /** a dominates b: b is reachable and a lies on every path from the entry to b. */
  ghost predicate Dom(g: Graph, a: Block, b: Block)
    requires g.Valid()
  {
    && Reachable(g, b)
    && forall p :: PathTo(g, p, b) ==> a in p
  }

  ghost predicate SDom(g: Graph, a: Block, b: Block)
    requires g.Valid()
  {
    Dom(g, a, b) && a != b
  }

  /** d is the immediate dominator of b: it strictly dominates b, and every
      strict dominator of b dominates it. */
  ghost predicate IDom(g: Graph, d: Block, b: Block)
    requires g.Valid()
  {
    && SDom(g, d, b)
    && forall c :: SDom(g, c, b) ==> Dom(g, c, d)
  }

  /** y is in the dominance frontier of x: x dominates some predecessor of y
      and does not strictly dominate y. */
  ghost predicate InFrontier(g: Graph, x: Block, y: Block)
    requires g.Valid()
  {
    && y in g.blocks
    && (exists p :: p in g.pre[y] && Dom(g, x, p))
    && !SDom(g, x, y)
  }

  /** No unreachable block jumps into a reachable one. */
  ghost predicate PredsReachable(g: Graph)
    requires g.Valid()
  {
    forall b, p :: b in g.blocks && Reachable(g, b) && p in g.pre[b] ==> Reachable(g, p)
  }

  // ---------- paths ----------

  lemma PathPrefix(g: Graph, p: seq<Block>, b: Block, i: nat)
    requires g.Valid() && PathTo(g, p, b) && i < |p|
    ensures PathTo(g, p[..i + 1], p[i])
  {
  }

  lemma PathExtend(g: Graph, p: seq<Block>, b: Block, s: Block)
    requires g.Valid() && PathTo(g, p, b) && s in g.succ[b]
    ensures PathTo(g, p + [s], s)
  {
    var q := p + [s];
    forall i | 0 <= i < |q| - 1
      ensures q[i + 1] in g.succ[q[i]]
    {
      if i == |p| - 1 {
        assert q[i] == b;
      }
    }
  }

  lemma EntryReachable(g: Graph)
    requires g.Valid()
    ensures PathTo(g, [g.Entry()], g.Entry())
    ensures Reachable(g, g.Entry())
  {
    assert PathTo(g, [g.Entry()], g.Entry());
  }

  lemma SuccReachable(g: Graph, b: Block, s: Block)
    requires g.Valid() && Reachable(g, b) && b in g.blocks && s in g.succ[b]
    ensures Reachable(g, s) && s in g.blocks
  {
    var p :| PathTo(g, p, b);
    PathExtend(g, p, b, s);
  }

  lemma EntryInBlocks(g: Graph)
    requires g.Valid()
    ensures |g.blocks| > 0 && g.Entry() in g.blocks
  {
  }

  lemma PredInBlocks(g: Graph, b: Block, p: Block)
    requires g.Valid() && b in g.blocks && p in g.pre[b]
    ensures p in g.blocks && b in g.succ[p]
  {
  }

  lemma ReachableInBlocks(g: Graph, b: Block)
    requires g.Valid() && Reachable(g, b)
    ensures b in g.blocks
  {
    var p :| PathTo(g, p, b);
    assert p[|p| - 1] in g.blocks;
  }

  /** Every path to a block other than the entry arrives from a reachable predecessor. */
  lemma PathLastStep(g: Graph, p: seq<Block>, b: Block)
    requires g.Valid() && PathTo(g, p, b) && b != g.Entry()
    ensures |p| >= 2
    ensures b in g.blocks && p[|p| - 2] in g.pre[b]
    ensures PathTo(g, p[..|p| - 1], p[|p| - 2])
    ensures p == p[..|p| - 1] + [b]
  {
    PathPrefix(g, p, b, |p| - 2);
    assert p[|p| - 2 + 1] in g.succ[p[|p| - 2]];
    assert p[..|p| - 2 + 1] == p[..|p| - 1];
  }

  /** A set of blocks that holds the entry and is closed under successors
      holds every reachable block. */
  lemma {:induction false} ClosedHoldsPath(g: Graph, closed: set<Block>, p: seq<Block>, b: Block)
    requires g.Valid() && PathTo(g, p, b)
    requires g.Entry() in closed
    requires forall x, s :: x in closed && x in g.blocks && s in g.succ[x] ==> s in closed
    ensures b in closed
    decreases |p|
  {
    if |p| > 1 {
      PathPrefix(g, p, b, |p| - 2);
      ClosedHoldsPath(g, closed, p[..|p| - 2 + 1], p[|p| - 2]);
      assert p[|p| - 2 + 1] in g.succ[p[|p| - 2]];
    }
  }

  // ---------- dominance is a partial order rooted at the entry ----------

  lemma DomReflexive(g: Graph, b: Block)
    requires g.Valid() && Reachable(g, b)
    ensures Dom(g, b, b)
  {
    forall p | PathTo(g, p, b)
      ensures b in p
    {
      assert p[|p| - 1] == b;
    }
  }

  lemma DomReachable(g: Graph, a: Block, b: Block)
    requires g.Valid() && Dom(g, a, b)
    ensures Reachable(g, a) && Reachable(g, b) && a in g.blocks && b in g.blocks
  {
    var p :| PathTo(g, p, b);
    var i :| 0 <= i < |p| && p[i] == a;
    PathPrefix(g, p, b, i);
    ReachableInBlocks(g, b);
  }

  lemma EntryDominates(g: Graph, b: Block)
    requires g.Valid() && Reachable(g, b)
    ensures Dom(g, g.Entry(), b)
  {
    forall p | PathTo(g, p, b)
      ensures g.Entry() in p
    {
      assert p[0] == g.Entry();
    }
  }

  lemma OnlyEntryDominatesEntry(g: Graph, a: Block)
    requires g.Valid() && Dom(g, a, g.Entry())
    ensures a == g.Entry()
  {
    EntryReachable(g);
    assert a in [g.Entry()];
  }

  lemma DomTransitive(g: Graph, a: Block, b: Block, c: Block)
    requires g.Valid() && Dom(g, a, b) && Dom(g, b, c)
    ensures Dom(g, a, c)
  {
    forall p | PathTo(g, p, c)
      ensures a in p
    {
      var i :| 0 <= i < |p| && p[i] == b;
      PathPrefix(g, p, c, i);
      assert a in p[..i + 1];
    }
  }

  lemma {:induction false} NoMutualDominance(g: Graph, p: seq<Block>, a: Block, b: Block)
    requires g.Valid() && Dom(g, a, b) && Dom(g, b, a) && a != b
    requires PathTo(g, p, b)
    ensures false
    decreases |p|
  {
    var i :| 0 <= i < |p| && p[i] == a;
    PathPrefix(g, p, b, i);
    NoMutualDominance(g, p[..i + 1], b, a);
  }

  lemma DomAntisymmetric(g: Graph, a: Block, b: Block)
    requires g.Valid() && Dom(g, a, b) && Dom(g, b, a)
    ensures a == b
  {
    if a != b {
      var p :| PathTo(g, p, b);
      NoMutualDominance(g, p, a, b);
    }
  }

  /** A strict dominator of b dominates every reachable predecessor of b. */
  lemma SDomDominatesPred(g: Graph, a: Block, b: Block, q: Block)
    requires g.Valid() && SDom(g, a, b) && q in g.blocks && b in g.succ[q] && Reachable(g, q)
    ensures Dom(g, a, q)
  {
    forall p | PathTo(g, p, q)
      ensures a in p
    {
      PathExtend(g, p, q, b);
      assert a in p + [b];
    }
  }

  /** The converse: what dominates every reachable predecessor dominates b. */
  lemma DomFromPreds(g: Graph, a: Block, b: Block)
    requires g.Valid() && Reachable(g, b) && b != g.Entry()
    requires forall q :: q in g.pre[b] && Reachable(g, q) ==> Dom(g, a, q)
    ensures Dom(g, a, b)
  {
    forall p | PathTo(g, p, b)
      ensures a in p
    {
      PathLastStep(g, p, b);
      var q := p[|p| - 2];
      assert Reachable(g, q);
      assert a in p[..|p| - 1];
    }
  }

  lemma IDomUnique(g: Graph, d: Block, e: Block, b: Block)
    requires g.Valid() && IDom(g, d, b) && IDom(g, e, b)
    ensures d == e
  {
    DomAntisymmetric(g, d, e);
  }

  // ---------- dominators of one block form a chain ----------

  lemma PathJoin(g: Graph, q: seq<Block>, a: Block, p: seq<Block>, b: Block, i: nat)
    requires g.Valid() && PathTo(g, q, a) && PathTo(g, p, b) && i < |p| && p[i] == a
    ensures PathTo(g, q + p[i + 1..], b)
  {
    var r := q + p[i + 1..];
    forall k | 0 <= k < |r| - 1
      ensures r[k + 1] in g.succ[r[k]]
    {
      if k >= |q| {
        assert r[k] == p[k - |q| + i + 1] && r[k + 1] == p[k - |q| + i + 1 + 1];
      } else if k == |q| - 1 {
        assert r[k] == a && r[k + 1] == p[i + 1];
      }
    }
  }

  /** The last position on p of a or b. */
  lemma {:induction false} LastOfTwo(p: seq<Block>, a: Block, b: Block) returns (i: nat)
    requires a in p
    ensures i < |p| && (p[i] == a || p[i] == b)
    ensures forall k :: i < k < |p| ==> p[k] != a && p[k] != b
  {
    var n := |p| - 1;
    if p[n] == a || p[n] == b {
      i := n;
    } else {
      assert a in p[..n];
      i := LastOfTwo(p[..n], a, b);
    }
  }

  lemma AvoidingPath(g: Graph, a: Block, b: Block, c: Block, p: seq<Block>, i: nat)
    requires g.Valid() && Dom(g, b, c) && a != b && Reachable(g, a) && PathTo(g, p, c)
    requires i < |p| && p[i] == a && forall k :: i < k < |p| ==> p[k] != b
    ensures Dom(g, b, a)
  {
    forall q | PathTo(g, q, a)
      ensures b in q
    {
      PathJoin(g, q, a, p, c, i);
      assert b in q + p[i + 1..];
    }
  }

  lemma DomComparable(g: Graph, a: Block, b: Block, c: Block)
    requires g.Valid() && Dom(g, a, c) && Dom(g, b, c)
    ensures Dom(g, a, b) || Dom(g, b, a)
  {
    DomReachable(g, a, c);
    DomReachable(g, b, c);
    if a == b {
      DomReflexive(g, a);
    } else {
      var p :| PathTo(g, p, c);
      var i := LastOfTwo(p, a, b);
      if p[i] == a {
        AvoidingPath(g, a, b, c, p, i);
      } else {
        AvoidingPath(g, b, a, c, p, i);
      }
    }
  }

  // ---------- depth in the dominator tree ----------

  ghost function DomSet(g: Graph, b: Block): set<Block>
    requires g.Valid()
  {
    set a | a in g.blocks && Dom(g, a, b)
  }

  /** The number of dominators of b: a rank that strictly grows away from the entry. */
  ghost function Depth(g: Graph, b: Block): nat
    requires g.Valid()
  {
    |DomSet(g, b)|
  }

  lemma SubsetSize<T>(a: set<T>, b: set<T>)
    requires a <= b
    ensures |a| <= |b|
    ensures a != b ==> |a| < |b|
  {
    assert b == a + (b - a);
  }

  lemma DepthGrows(g: Graph, a: Block, b: Block)
    requires g.Valid() && SDom(g, a, b)
    ensures Depth(g, a) < Depth(g, b)
  {
    forall c | c in DomSet(g, a)
      ensures c in DomSet(g, b)
    {
      DomTransitive(g, c, a, b);
    }
    DomReflexive(g, b);
    ReachableInBlocks(g, b);
    if Dom(g, b, a) {
      DomAntisymmetric(g, a, b);
    }
    assert b in DomSet(g, b) && b !in DomSet(g, a);
    SubsetSize(DomSet(g, a), DomSet(g, b));
  }

  lemma DepthBound(g: Graph, b: Block)
    requires g.Valid()
    ensures Depth(g, b) <= |set a | a in g.blocks|
  {
    SubsetSize(DomSet(g, b), set a | a in g.blocks);
  }
}
