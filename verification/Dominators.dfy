/** The dominator analysis: postorder numbering, the iterative computation of
    immediate dominators, dominance frontiers and the dominator tree. */
module Dominators {
  import opened Cfg
  import opened DomTree
  import opened Frontier

  // ---------- the depth-first numbering ----------

  /** intToBb and node are inverse to each other on 1..count. */
  ghost predicate NumbersOk(node: map<Block, int>, intToBb: seq<Block>, count: int) {
    && count >= 0
    && |intToBb| == count + 1
    && (forall k :: 1 <= k <= count ==> intToBb[k] in node && node[intToBb[k]] == k)
    && (forall b :: b in node ==> 1 <= node[b] <= count && intToBb[node[b]] == b)
  }

  /** What the search keeps: numbered blocks are the finished ones, and a
      finished block has only visited successors. */
  ghost predicate SearchInv(g: Graph, visited: seq<Block>, node: map<Block, int>)
    requires g.Valid()
  {
    && (forall b :: b in visited ==> b in g.blocks)
    && (forall b {:trigger Reachable(g, b)} :: b in visited ==> Reachable(g, b))
    && (forall b :: b in node ==> b in visited)
    && (forall b, s :: b in node && b in g.succ && s in g.succ[b] ==> s in visited)
  }

  ghost predicate ForwardPredIn(g: Graph, node: map<Block, int>, b: Block)
    requires g.Valid() && b in g.blocks && b in node
  {
    exists p :: p in g.pre[b] && p in node && node[p] > node[b]
  }

  /** The numbering of the blocks reachable from the entry. */
  ghost predicate Postorder(g: Graph, node: map<Block, int>, intToBb: seq<Block>, count: int)
    requires g.Valid()
  {
    && NumbersOk(node, intToBb, count)
    && intToBb[0] == NULL
    && g.Entry() in node && node[g.Entry()] == count
    && (forall b {:trigger Reachable(g, b)} :: b in node <==> Reachable(g, b))
    && (forall b :: b in node ==> b in g.blocks)
    && (forall b {:trigger ForwardPredIn(g, node, b)} :: b in node && b != g.Entry() ==> ForwardPredIn(g, node, b))
  }

  lemma FinishedIsReachable(g: Graph, visited: seq<Block>, node: map<Block, int>)
    requires g.Valid() && SearchInv(g, visited, node)
    requires forall b :: b in visited ==> b in node
    requires g.Entry() in visited
    ensures forall b :: Reachable(g, b) ==> b in node
  {
    var closed := set b | b in visited;
    forall b | Reachable(g, b)
      ensures b in node
    {
      var p :| PathTo(g, p, b);
      ClosedHoldsPath(g, closed, p, b);
    }
  }

  ghost function Unseen(g: Graph, visited: seq<Block>): set<Block> {
    (set b | b in g.blocks) - (set b | b in visited)
  }

  lemma UnseenShrinks(g: Graph, before: seq<Block>, after: seq<Block>, b: Block)
    requires b in g.blocks && b !in before && b in after
    requires forall c :: c in before ==> c in after
    ensures Unseen(g, after) < Unseen(g, before)
  {
    forall x | x in Unseen(g, after)
      ensures x in Unseen(g, before)
    {
      assert x !in before;
    }
    assert b in Unseen(g, before) && b !in Unseen(g, after);
  }

  /** How visited and node grow during a search: nothing is lost or renumbered,
      and only blocks unvisited at its start are numbered. */
  ghost predicate Grown(visited0: seq<Block>, node0: map<Block, int>, visited: seq<Block>, node: map<Block, int>) {
    && (forall c :: c in visited0 ==> c in visited)
    && (forall c :: c in node0 ==> c in node && node[c] == node0[c])
    && (forall c :: c in node && c !in node0 ==> c !in visited0)
  }

  /** Every block visited since the start, except b itself, is finished with a number above low. */
  ghost predicate Finished(visited0: seq<Block>, low: int, visited: seq<Block>, node: map<Block, int>, b: Block) {
    forall c :: c in visited && c !in visited0 && c != b ==> c in node && node[c] > low
  }

  lemma GrownThrough(v0: seq<Block>, n0: map<Block, int>, v1: seq<Block>, n1: map<Block, int>, v2: seq<Block>,
          n2: map<Block, int>)
    requires Grown(v0, n0, v1, n1) && Grown(v1, n1, v2, n2)
    ensures Grown(v0, n0, v2, n2)
  {
  }

  lemma FinishedThrough(v0: seq<Block>, low: int, v1: seq<Block>, n1: map<Block, int>, b: Block,
                        mid: int, v2: seq<Block>, n2: map<Block, int>, t: Block)
    requires Finished(v0, low, v1, n1, b) && Finished(v1, mid, v2, n2, t) && Grown(v1, n1, v2, n2)
    requires low <= mid && t in n2 && n2[t] > low
    ensures Finished(v0, low, v2, n2, b)
  {
  }

  /** Numbering b last keeps the search invariant. */
  lemma FinishBlock(g: Graph, visited: seq<Block>, node: map<Block, int>, intToBb: seq<Block>, count: int, b: Block)
    requires g.Valid() && b in g.blocks
    requires SearchInv(g, visited, node) && NumbersOk(node, intToBb, count)
    requires b in visited && b !in node
    requires forall s :: s in g.succ[b] ==> s in visited
    ensures SearchInv(g, visited, node[b := count + 1])
    ensures NumbersOk(node[b := count + 1], intToBb + [b], count + 1)
  {
    var node' := node[b := count + 1];
    forall x, s | x in node' && x in g.succ && s in g.succ[x]
      ensures s in visited
    {
      if x != b {
        assert x in node;
      }
    }
  }

  /** Every block numbered since the start has a higher-numbered predecessor or is a successor of b. */
  ghost predicate Parented(g: Graph, node0: map<Block, int>, node: map<Block, int>, b: Block)
    requires g.Valid() && forall c :: c in node ==> c in g.blocks
  {
    forall c {:trigger ForwardPredIn(g, node, c)} ::
      c in node && c !in node0 ==> ForwardPredIn(g, node, c) || b in g.pre[c]
  }

  /** Forward predecessors survive further numbering. */
  lemma ForwardPredKept(g: Graph, before: map<Block, int>, after: map<Block, int>, c: Block)
    requires g.Valid() && c in g.blocks && c in before && ForwardPredIn(g, before, c)
    requires forall x :: x in before ==> x in after && after[x] == before[x]
    ensures ForwardPredIn(g, after, c)
  {
    var p :| p in g.pre[c] && p in before && before[p] > before[c];
    assert p in after && after[p] > after[c];
  }

  lemma ParentedAfterChild(g: Graph, node0: map<Block, int>, node1: map<Block, int>, node2: map<Block, int>, b: Block,
          t: Block)
    requires g.Valid() && b in g.blocks && t in g.succ[b]
    requires forall c :: c in node2 ==> c in g.blocks
    requires forall c :: c in node1 ==> c in node2 && node2[c] == node1[c]
    requires Parented(g, node0, node1, b)
    requires forall c {:trigger ForwardPredIn(g, node2, c)} ::
        c in node2 && c !in node1 && c != t ==> ForwardPredIn(g, node2, c)
    ensures Parented(g, node0, node2, b)
  {
    forall c | c in node2 && c !in node0
      ensures ForwardPredIn(g, node2, c) || b in g.pre[c]
    {
      if c in node1 && ForwardPredIn(g, node1, c) {
        ForwardPredKept(g, node1, node2, c);
      }
    }
  }

  lemma ParentedAfterFinish(g: Graph, node0: map<Block, int>, node1: map<Block, int>, b: Block, n: int)
    requires g.Valid() && b in g.blocks && b !in node1
    requires forall c :: c in node1 ==> c in g.blocks && node1[c] < n
    requires Parented(g, node0, node1, b)
    ensures forall c {:trigger ForwardPredIn(g, node1[b := n], c)} ::
        c in node1 && c !in node0 ==> ForwardPredIn(g, node1[b := n], c)
  {
    var node2 := node1[b := n];
    forall c | c in node1 && c !in node0
      ensures ForwardPredIn(g, node2, c)
    {
      if ForwardPredIn(g, node1, c) {
        ForwardPredKept(g, node1, node2, c);
      } else {
        assert b in node2 && node2[b] > node2[c];
      }
    }
  }

  /** A search of b that started in state (v0, n0, c0) is under way: b is
      visited but not yet numbered. */
  ghost predicate Searching(g: Graph, v0: seq<Block>, n0: map<Block, int>, c0: int,
                            visited: seq<Block>, node: map<Block, int>, intToBb: seq<Block>, count: int, b: Block)
    requires g.Valid()
  {
    && SearchInv(g, visited, node) && NumbersOk(node, intToBb, count)
    && count >= c0
    && b in g.blocks && b in visited && b !in v0 && b !in node
    && Grown(v0, n0, visited, node)
    && Finished(v0, c0, visited, node, b)
    && Parented(g, n0, node, b)
  }

  /** The search of b is complete: b has the highest number, and every other
      block numbered by it has a higher-numbered predecessor. */
  ghost predicate Searched(g: Graph, v0: seq<Block>, n0: map<Block, int>, c0: int,
                           visited: seq<Block>, node: map<Block, int>, intToBb: seq<Block>, count: int, b: Block)
    requires g.Valid()
  {
    && SearchInv(g, visited, node) && NumbersOk(node, intToBb, count)
    && count > c0
    && b in visited && b in node && node[b] == count
    && Grown(v0, n0, visited, node)
    && Finished(v0, c0, visited, node, b)
    && (forall c {:trigger ForwardPredIn(g, node, c)} :: c in node && c !in n0 && c != b ==> ForwardPredIn(g, node, c))
  }

  lemma SearchStarts(g: Graph, v0: seq<Block>, n0: map<Block, int>, intToBb: seq<Block>, c0: int, b: Block)
    requires g.Valid() && b in g.blocks && Reachable(g, b) && b !in v0
    requires SearchInv(g, v0, n0) && NumbersOk(n0, intToBb, c0)
    ensures Searching(g, v0, n0, c0, v0 + [b], n0, intToBb, c0, b)
  {
  }

  ghost predicate AllVisited(s: seq<Block>, visited: seq<Block>) {
    forall c :: c in s ==> c in visited
  }

  lemma VisitedNext(succ: seq<Block>, i: nat, v1: seq<Block>, v2: seq<Block>)
    requires i < |succ| && AllVisited(succ[..i], v1)
    requires (forall c :: c in v1 ==> c in v2) && succ[i] in v2
    ensures AllVisited(succ[..i + 1], v2)
  {
    assert succ[..i + 1] == succ[..i] + [succ[i]];
  }

  lemma SearchResumes(g: Graph, v0: seq<Block>, n0: map<Block, int>, c0: int,
                      v1: seq<Block>, n1: map<Block, int>, i1: seq<Block>, c1: int, b: Block,
                      v2: seq<Block>, n2: map<Block, int>, i2: seq<Block>, c2: int, t: Block)
    requires g.Valid() && Searching(g, v0, n0, c0, v1, n1, i1, c1, b)
    requires Searched(g, v1, n1, c1, v2, n2, i2, c2, t) && t in g.succ[b]
    ensures Searching(g, v0, n0, c0, v2, n2, i2, c2, b)
  {
    GrownThrough(v0, n0, v1, n1, v2, n2);
    FinishedThrough(v0, c0, v1, n1, b, c1, v2, n2, t);
    ParentedAfterChild(g, n0, n1, n2, b, t);
    assert b in v1;
  }

  lemma SearchEnds(g: Graph, v0: seq<Block>, n0: map<Block, int>, c0: int,
                   visited: seq<Block>, node: map<Block, int>, intToBb: seq<Block>, count: int, b: Block)
    requires g.Valid() && Searching(g, v0, n0, c0, visited, node, intToBb, count, b)
    requires AllVisited(g.succ[b], visited)
    ensures Searched(g, v0, n0, c0, visited, node[b := count + 1], intToBb + [b], count + 1, b)
  {
    FinishBlock(g, visited, node, intToBb, count, b);
    ParentedAfterFinish(g, n0, node, b, count + 1);
  }

  ghost function TreeOf(g: Graph, node: map<Block, int>, idom: map<Block, Block>): Tree
    requires |g.blocks| > 0
  {
    Tree(g.Entry(), node, idom, set b | b in node && b in idom && idom[b] != NULL)
  }

  /** Every common ancestor of a and b is an ancestor of f. */
  ghost predicate CommonBelow(t: Tree, a: Block, b: Block, f: Block)
    requires t.Valid() && a in t.node && b in t.node && f in t.node
  {
    forall x {:trigger t.Anc(x, f)} :: t.Anc(x, a) && t.Anc(x, b) ==> t.Anc(x, f)
  }

  class Dominators {
    var count: int
    var node: map<Block, int>
    var intToBb: seq<Block>
    var visited: seq<Block>
    var idom: map<Block, Block>
    var domFrontier: map<Block, set<Block>>
    var domTreeSucc: map<Block, set<Block>>

    constructor ()
      ensures idom == map[] && domFrontier == map[] && domTreeSucc == map[]
    {
      count, node, intToBb, visited := 0, map[], [], [];
      idom, domFrontier, domTreeSucc := map[], map[], map[];
    }

    method Reset()
      modifies `count, `node, `intToBb, `visited
      ensures count == 0 && node == map[] && intToBb == [] && visited == []
    {
      count, node, intToBb, visited := 0, map[], [], [];
    }

    method Dfs(g: Graph, b: Block)
      requires g.Valid() && b in g.blocks && Reachable(g, b) && b !in visited
      requires SearchInv(g, visited, node) && NumbersOk(node, intToBb, count)
      modifies `count, `node, `intToBb, `visited
      ensures Searched(g, old(visited), old(node), old(count), visited, node, intToBb, count, b)
      ensures intToBb[0] == old(intToBb[0])
      decreases Unseen(g, visited)
    {
      SearchStarts(g, visited, node, intToBb, count, b);
      visited := visited + [b];
      var succ := g.succ[b];
      var i := 0;
      while i < |succ|
        invariant 0 <= i <= |succ|
        invariant Searching(g, old(visited), old(node), old(count), visited, node, intToBb, count, b)
        invariant intToBb[0] == old(intToBb[0])
        invariant AllVisited(succ[..i], visited)
      {
        var t := succ[i];
        ghost var v1, n1, i1, c1 := visited, node, intToBb, count;
        if t !in visited {
          SuccReachable(g, b, t);
          UnseenShrinks(g, old(visited), visited, b);
          Dfs(g, t);
          SearchResumes(g, old(visited), old(node), old(count), v1, n1, i1, c1, b, visited, node, intToBb, count, t);
        }
        VisitedNext(succ, i, v1, visited);
        i := i + 1;
      }
      assert succ[..i] == succ;
      SearchEnds(g, old(visited), old(node), old(count), visited, node, intToBb, count, b);
      count := count + 1;
      node := node[b := count];
      intToBb := intToBb + [b];
    }

    method NumNode(g: Graph)
      requires g.Valid()
      modifies `count, `node, `intToBb, `visited
      ensures Postorder(g, node, intToBb, count)
    {
      Reset();
      intToBb := intToBb + [NULL];
      EntryReachable(g);
      Dfs(g, g.Entry());
      FinishedIsReachable(g, visited, node);
    }

    /** The two-finger walk finds the nearest common ancestor. */
    method Intersect(a: Block, b: Block, ghost t: Tree) returns (r: Block)
      requires t.Valid() && t.node == node && t.idom == idom
      requires t.Processed(a) && t.Processed(b)
      ensures t.Processed(r) && t.Anc(r, a) && t.Anc(r, b)
      ensures CommonBelow(t, a, b, r)
    {
      var finger1, finger2 := a, b;
      while finger1 != finger2
        invariant t.Processed(finger1) && t.Processed(finger2)
        invariant t.Anc(finger1, a) && t.Anc(finger2, b)
        invariant CommonBelow(t, a, b, finger1) && CommonBelow(t, a, b, finger2)
        decreases 2 * t.node[t.entry] - node[finger1] - node[finger2]
      {
        while node[finger1] < node[finger2]
          invariant t.Processed(finger1) && t.Anc(finger1, a)
          invariant CommonBelow(t, a, b, finger1) && CommonBelow(t, a, b, finger2)
          decreases t.node[t.entry] - node[finger1]
        {
          StepFinger(t, a, finger1);
          CommonAboveStep(t, a, b, finger1, finger2);
          finger1 := idom[finger1];
        }
        while node[finger1] > node[finger2]
          invariant t.Processed(finger2) && t.Anc(finger2, b)
          invariant CommonBelow(t, a, b, finger1) && CommonBelow(t, a, b, finger2)
          decreases t.node[t.entry] - node[finger2]
        {
          StepFinger(t, b, finger2);
          CommonAboveStep(t, a, b, finger2, finger1);
          finger2 := idom[finger2];
        }
      }
      r := finger1;
    }

    /** The first block of a list that has a link; the list holds one, so the
        source's assertion on the result never fails. */
    method FirstProcessed(bs: seq<Block>, ghost p: Block) returns (first: Block)
      requires forall b :: b in bs ==> b in idom.Keys
      requires p in bs && idom[p] != NULL
      ensures first != NULL ==> first in bs && idom[first] != NULL
      ensures NULL !in bs ==> first != NULL
    {
      first := NULL;
      for i := 0 to |bs|
        invariant first == NULL && p !in bs[..i] && idom == old(idom)
      {
        var b := bs[i];
        assert b in bs;
        assert b in idom.Keys;
        if idom[bs[i]] != NULL {
          first := bs[i];
          return;
        }
        assert bs[..i + 1] == bs[..i] + [bs[i]];
      }
    }

    /** The meet of the processed predecessors of b, as one turn computes it. */
    method MeetOfPreds(g: Graph, b: Block, ghost t: Tree, ghost p: Block) returns (newIdom: Block)
      requires g.Valid() && Numbered(g, t) && t.node == node && t.idom == idom
      requires b in node && b in g.blocks && p in g.pre[b] && t.Processed(p)
      requires forall q :: q in g.pre[b] ==> q in idom && q != NULL && (idom[q] != NULL <==> t.Processed(q))
      ensures Meet(g, t, newIdom, b)
    {
      MeetReady(g, t, b);
      hide *;
      var pre := g.pre[b];
      var first := FirstProcessed(pre, p);
      assert first != NULL;
      newIdom := first;
      MeetStarts(g, t, b, first);
      var i := 0;
      while i < |pre|
        invariant 0 <= i <= |pre| && MeetSoFar(g, t, b, i, newIdom)
      {
        var q := pre[i];
        assert q in pre;
        if newIdom == q {
          MeetSkips(g, t, b, i, newIdom);
        } else if idom[q] != NULL {
          MeetLinked(g, t, b, i, newIdom);
          ghost var f := newIdom;
          newIdom := Intersect(q, newIdom, t);
          MeetAdds(g, t, b, i, f, newIdom);
        } else {
          MeetSkips(g, t, b, i, newIdom);
        }
        i := i + 1;
      }
      MeetDone(g, t, b, newIdom);
    }

    /** One sweep in reverse postorder. Each link it changes rises, so either
        the slack drops or nothing changed and all links are settled. */
    method Sweep(g: Graph, ghost idom0: map<Block, Block>, ghost t0: Tree) returns (changed: bool, ghost t: Tree)
      requires IterState(g, t0, node, intToBb, count, idom0, idom)
      requires SweepInv(g, t0, count)
      modifies `idom
      ensures IterState(g, t, node, intToBb, count, idom0, idom)
      ensures SweepInv(g, t, count)
      ensures if changed then Slack(t, intToBb[1..], count) < Slack(t0, intToBb[1..], count)
          else t == t0 && Fixpoint(g, t)
    {
      hide *;
      changed, t := false, t0;
      SweepBegins(g, t, node, intToBb, count, idom0, idom);
      var k := |intToBb| - 2;
      while k >= 1
        invariant SweepState(g, t0, t, k, node, intToBb, count, idom0, idom, changed)
      {
        SweepFacts(g, t0, t, k, node, intToBb, count, idom0, idom, changed);
        var bb := intToBb[k];
        ghost var p := ForwardPred(g, t, k, bb);
        PredLinks(g, t, idom, bb);
        var newIdom := MeetOfPreds(g, bb, t, p);
        if idom[bb] != newIdom {
          SweepRelinks(g, t0, t, k, node, intToBb, count, idom0, idom, changed, newIdom);
          idom := idom[bb := newIdom];
          t := Relink(t, bb, newIdom);
          changed := true;
        } else {
          SweepPasses(g, t0, t, k, node, intToBb, count, idom0, idom, changed);
        }
        k := k - 1;
      }
      SweepDone(g, t0, t, k, node, intToBb, count, idom0, idom, changed);
    }

    /** Immediate dominators by iteration to a fixpoint. */
    method CreateIdom(g: Graph)
      requires g.Valid()
      requires forall b :: b in g.blocks ==> b in idom && idom[b] == NULL
      modifies `count, `node, `intToBb, `visited, `idom
      ensures IterState(g, TreeOf(g, node, idom), node, intToBb, count, old(idom), idom)
      ensures Fixpoint(g, TreeOf(g, node, idom))
    {
      hide *;
      NumNode(g);
      InitialState(g, node, intToBb, count, idom);
      var entry := g.Entry();
      idom := idom[entry := entry];
      ghost var t := TreeOf(g, node, idom);
      IterFacts(g, t, node, intToBb, count, old(idom), idom);
      SweepStarts(g, t);
      var changed := true;
      while changed
        invariant IterState(g, t, node, intToBb, count, old(idom), idom)
        invariant g.Valid() && t.Valid() && Numbered(g, t)
        invariant |intToBb| == count + 1 && count >= 1
        invariant SweepInv(g, t, count)
        invariant !changed ==> Fixpoint(g, t)
        decreases Slack(t, intToBb[1..], count), changed
      {
        ghost var t0 := t;
        IterFacts(g, t0, node, intToBb, count, old(idom), idom);
        SlackNonNegative(t0, intToBb[1..], count);
        changed, t := Sweep(g, old(idom), t0);
        IterFacts(g, t, node, intToBb, count, old(idom), idom);
        SlackNonNegative(t, intToBb[1..], count);
      }
      IterIsTreeOf(g, t, node, intToBb, count, old(idom), idom);
    }

    /** The runner walk from predecessor p of b up to the link of b. */
    method WalkRunner(g: Graph, b: Block, p: Block, ghost t: Tree)
      requires Analysed(g, t) && t.idom == idom && NULL !in domFrontier
      requires b in g.blocks && p in g.pre[b] && p in g.blocks
      requires b in t.node <==> p in t.node
      requires forall c :: c in g.blocks ==> c in domFrontier
      modifies `domFrontier
      ensures FrontierAfter(t, old(domFrontier), domFrontier, b, [p])
    {
      var runner := p;
      if b in t.node {
        LinkAbovePreds(g, t, b, p);
        WalkEntry(g, t, domFrontier, b, p);
      }
      while runner != idom[b]
        invariant if b in t.node
                  then runner in t.node && t.Anc(runner, p) && t.Anc(idom[b], runner)
                  else runner == p || runner == NULL
        invariant runner in g.blocks || runner == NULL
        invariant b !in t.node && runner == p ==> domFrontier == old(domFrontier)
        invariant b in t.node || runner == NULL ==> FrontierWalked(t, old(domFrontier), domFrontier, b, p, runner)
        decreases if b in t.node then t.node[t.entry] - t.node[runner] + 1 else if runner == NULL then 0 else 1
      {
        ghost var f0 := domFrontier;
        domFrontier := domFrontier[runner := domFrontier[runner] + {b}];
        if b in t.node {
          WalkStep(g, t, b, p, runner);
          FrontierStep(g, t, old(domFrontier), f0, b, p, runner, idom[runner]);
        }
        runner := idom[runner];
      }
      FrontierWalkEnds(t, old(domFrontier), domFrontier, b, p);
    }

    method CreateDominanceFrontier(g: Graph, ghost t: Tree)
      requires Analysed(g, t) && PredsReachable(g) && t.idom == idom && NULL !in domFrontier
      requires forall c :: c in g.blocks ==> c in domFrontier
      modifies `domFrontier
      ensures FrontierOf(g, t, old(domFrontier), domFrontier, |g.blocks|)
    {
      hide *;
      var bs := g.blocks;
      FrontierNothing(g, t, domFrontier);
      for i := 0 to |bs|
        invariant domFrontier.Keys == old(domFrontier).Keys
        invariant FrontierOf(g, t, old(domFrontier), domFrontier, i)
      {
        var b := bs[i];
        JoinFacts(g, t, i);
        ghost var f0 := domFrontier;
        if |g.pre[b]| >= 2 {
          var pre := g.pre[b];
          FrontierNoPreds(t, domFrontier, b);
          for j := 0 to |pre|
            invariant domFrontier.Keys == old(domFrontier).Keys
            invariant FrontierAfter(t, f0, domFrontier, b, pre[..j])
          {
            PredFacts(g, t, b, pre[j]);
            ghost var f1 := domFrontier;
            WalkRunner(g, b, pre[j], t);
            FrontierNextPred(t, f0, f1, domFrontier, b, pre, j);
          }
          assert pre[..|pre|] == pre;
        }
        FrontierNextBlock(g, t, old(domFrontier), f0, domFrontier, i);
      }
    }

    /** Children in the dominator tree; unreachable blocks hang off the null block. */
    method CreateDomTreeSucc(g: Graph)
      requires g.Valid() && forall b :: b in g.blocks ==> b in idom
      modifies `domTreeSucc
      ensures TreeSuccAfter(old(domTreeSucc), domTreeSucc, idom, g.blocks)
    {
      var bs := g.blocks;
      for i := 0 to |bs|
        invariant TreeSuccAfter(old(domTreeSucc), domTreeSucc, idom, bs[..i])
      {
        var p := bs[i];
        TreeSuccNext(old(domTreeSucc), domTreeSucc, idom, bs, i);
        if idom[p] != p {
          domTreeSucc := domTreeSucc[idom[p] := SuccsOf(domTreeSucc, idom[p]) + {p}];
        }
      }
      assert bs[..|bs|] == bs;
    }

    /** Prepare the tables for one function: absent keys get null or empty entries. */
    method InsertBlocks(bs: seq<Block>)
      modifies `idom, `domFrontier, `domTreeSucc
      ensures idom == Inserted(old(idom), bs, NULL)
      ensures domFrontier == Inserted(old(domFrontier), bs, {})
      ensures domTreeSucc == Inserted(old(domTreeSucc), bs, {})
    {
      hide *;
      InsertedNone(idom, NULL);
      InsertedNone(domFrontier, {});
      InsertedNone(domTreeSucc, {});
      for i := 0 to |bs|
        invariant idom == Inserted(old(idom), bs[..i], NULL)
        invariant domFrontier == Inserted(old(domFrontier), bs[..i], {})
        invariant domTreeSucc == Inserted(old(domTreeSucc), bs[..i], {})
      {
        InsertedNext(old(idom), bs, i, NULL);
        InsertedNext(old(domFrontier), bs, i, {});
        InsertedNext(old(domTreeSucc), bs, i, {});
        if bs[i] !in idom {
          idom := idom[bs[i] := NULL];
        }
        if bs[i] !in domFrontier {
          domFrontier := domFrontier[bs[i] := {}];
        }
        if bs[i] !in domTreeSucc {
          domTreeSucc := domTreeSucc[bs[i] := {}];
        }
      }
      assert bs[..|bs|] == bs;
    }

    /** The analysis of one function whose blocks have not been seen before. */
    method RunOn(g: Graph)
      requires g.Valid() && PredsReachable(g)
      requires NULL !in idom && NULL !in domFrontier
      requires forall b :: b in g.blocks ==> b !in idom && b !in domFrontier && b !in domTreeSucc
      modifies this
      ensures Tables(g, idom, domFrontier, domTreeSucc)
      ensures OthersKept(old(idom), idom, g.blocks) && OthersKept(old(domFrontier), domFrontier, g.blocks)
      ensures OthersKept(old(domTreeSucc), domTreeSucc, g.blocks + [NULL])
    {
      hide *;
      InsertBlocks(g.blocks);
      ghost var idom0, f0, s0 := idom, domFrontier, domTreeSucc;
      InsertedFresh(g, old(idom), NULL);
      InsertedFresh(g, old(domFrontier), {});
      InsertedFresh(g, old(domTreeSucc), {});
      CreateIdom(g);
      EntryInBlocks(g);
      IterIsTreeOf(g, TreeOf(g, node, idom), node, intToBb, count, idom0, idom);
      ghost var t := TreeOf(g, node, idom);
      IterIsAnalysed(g, t, node, intToBb, count, idom0, idom);
      CreateDominanceFrontier(g, t);
      CreateDomTreeSucc(g);
      TreeSuccFacts(g, s0, domTreeSucc, idom);
      TablesHold(g, t, idom, f0, domFrontier, s0, domTreeSucc);
      KeptAfterInsert(old(idom), idom0, idom, g.blocks, NULL);
      FrontierKept(g, t, old(domFrontier), f0, domFrontier);
      TreeSuccKept(g, t, old(domTreeSucc), s0, domTreeSucc, idom);
    }

    /** The whole pass: functions without blocks are skipped. */
    method Run(fs: seq<Graph>)
      requires idom == map[] && domFrontier == map[] && domTreeSucc == map[]
      requires forall i :: 0 <= i < |fs| && |fs[i].blocks| > 0 ==> fs[i].Valid() && PredsReachable(fs[i])
      requires forall i, j, b :: 0 <= i < j < |fs| && b in fs[i].blocks ==> b !in fs[j].blocks
      modifies this
      ensures forall i :: 0 <= i < |fs| && |fs[i].blocks| > 0 ==> Tables(fs[i], idom, domFrontier, domTreeSucc)
    {
      assert forall i :: 0 <= i < |fs| ==> NULL !in fs[i].blocks;
      hide Tables, PredsReachable, Graph.Valid;
      for i := 0 to |fs|
        invariant forall j :: 0 <= j < i && |fs[j].blocks| > 0 ==> Tables(fs[j], idom, domFrontier, domTreeSucc)
        invariant NULL !in idom && NULL !in domFrontier
        invariant forall b :: b in idom || b in domFrontier || (b in domTreeSucc && b != NULL) ==>
                    exists j :: 0 <= j < i && b in fs[j].blocks
      {
        if |fs[i].blocks| == 0 {
          continue;
        }
        assert fs[i].Valid();
        ghost var idom0, f0, s0 := idom, domFrontier, domTreeSucc;
        RunOn(fs[i]);
        forall j | 0 <= j < i && |fs[j].blocks| > 0
          ensures Tables(fs[j], idom, domFrontier, domTreeSucc)
        {
          TablesKept(fs[j], fs[i].blocks, idom0, f0, s0, idom, domFrontier, domTreeSucc);
        }
      }
    }
  }

  /** The fields during the iteration, with t as their abstract value. */
  ghost predicate IterState(g: Graph, t: Tree, node: map<Block, int>, intToBb: seq<Block>, count: int,
                            before: map<Block, Block>, idom: map<Block, Block>)
  {
    && g.Valid()
    && (forall b :: b in g.blocks ==> b in before && before[b] == NULL)
    && Postorder(g, node, intToBb, count)
    && LinkFrame(g, node, before, idom)
    && t == TreeOf(g, node, idom)
    && t.Valid()
    && Numbered(g, t)
  }

  lemma IterFacts(g: Graph, t: Tree, node: map<Block, int>, intToBb: seq<Block>, count: int,
                  before: map<Block, Block>, idom: map<Block, Block>)
    requires IterState(g, t, node, intToBb, count, before, idom)
    ensures g.Valid() && t.Valid() && Numbered(g, t)
    ensures t.node == node && t.idom == idom && t.entry in node && node[t.entry] == count >= 1
    ensures |intToBb| == count + 1
    ensures forall k :: 1 <= k < count ==>
              var b := intToBb[k];
              b in node && node[b] == k && b != t.entry && b in g.blocks && b in idom &&
              (b in t.done <==> idom[b] != NULL)
    ensures forall c :: c in g.blocks ==> c in idom
    ensures forall c :: c in g.blocks && c !in t.node ==> idom[c] == NULL
  {
  }

  lemma IterIsTreeOf(g: Graph, t: Tree, node: map<Block, int>, intToBb: seq<Block>, count: int,
                     before: map<Block, Block>, idom: map<Block, Block>)
    requires IterState(g, t, node, intToBb, count, before, idom)
    ensures |g.blocks| > 0 && t == TreeOf(g, node, idom)
  {
  }

  lemma InitialState(g: Graph, node: map<Block, int>, intToBb: seq<Block>, count: int, before: map<Block, Block>)
    requires g.Valid() && Postorder(g, node, intToBb, count)
    requires forall b :: b in g.blocks ==> b in before && before[b] == NULL
    ensures |g.blocks| > 0
    ensures var idom := before[g.Entry() := g.Entry()];
            var t := TreeOf(g, node, idom);
            IterState(g, t, node, intToBb, count, before, idom) && OnlyEntryProcessed(t)
  {
    hide Numbered, Tree.Valid, OnlyEntryProcessed;
    assert g.Entry() in g.blocks;
    InitialTree(g, node, intToBb, count, before[g.Entry() := g.Entry()]);
  }

  /** The sweep stands before the block numbered k. */
  ghost predicate SweepState(g: Graph, t0: Tree, t: Tree, k: int, node: map<Block, int>, intToBb: seq<Block>,
          count: int,
                             before: map<Block, Block>, idom: map<Block, Block>, changed: bool)
  {
    && IterState(g, t, node, intToBb, count, before, idom)
    && 0 <= k < count
    && SweepInv(g, t, k + 1)
    && (!changed ==> SettledFrom(g, t, k + 1))
    && (if changed then Slack(t, intToBb[1..], count) < Slack(t0, intToBb[1..], count) else t == t0)
  }

  lemma SweepBegins(g: Graph, t: Tree, node: map<Block, int>, intToBb: seq<Block>, count: int,
          before: map<Block, Block>, idom: map<Block, Block>)
    requires IterState(g, t, node, intToBb, count, before, idom) && SweepInv(g, t, count)
    ensures |intToBb| == count + 1 && SweepState(g, t, t, count - 1, node, intToBb, count, before, idom, false)
  {
    hide IterState, Numbered, SweepInv, SettledFrom;
    IterFacts(g, t, node, intToBb, count, before, idom);
    SettledAtTop(g, t);
  }

  /** What one turn needs: the block numbered k, and links told from null by the map. */
  lemma SweepFacts(g: Graph, t0: Tree, t: Tree, k: int, node: map<Block, int>, intToBb: seq<Block>, count: int,
                   before: map<Block, Block>, idom: map<Block, Block>, changed: bool)
    requires SweepState(g, t0, t, k, node, intToBb, count, before, idom, changed) && k >= 1
    ensures g.Valid() && t.Valid() && Numbered(g, t) && SweepInv(g, t, k + 1) && t.node == node && t.idom == idom
    ensures k < |intToBb|
    ensures var b := intToBb[k]; b in node && node[b] == k && b != t.entry && b in g.blocks && b in idom
    ensures forall c :: c in g.blocks ==> c in idom
    ensures forall c :: c in g.blocks && c !in t.node ==> idom[c] == NULL
  {
    hide IterState, Numbered, SweepInv, SettledFrom, Slack;
    IterFacts(g, t, node, intToBb, count, before, idom);
  }

  /** A turn that moves the link. */
  lemma SweepRelinks(g: Graph, t0: Tree, t: Tree, k: int, node: map<Block, int>, intToBb: seq<Block>, count: int,
                     before: map<Block, Block>, idom: map<Block, Block>, changed: bool, d: Block)
    requires SweepState(g, t0, t, k, node, intToBb, count, before, idom, changed) && 1 <= k < |intToBb|
    requires g.Valid() && Numbered(g, t) && intToBb[k] in t.node && intToBb[k] in idom && Meet(g, t, d, intToBb[k])
        && idom[intToBb[k]] != d
    ensures SweepState(g, t0, Relink(t, intToBb[k], d), k - 1, node, intToBb, count, before, idom[intToBb[k] := d],
        true)
  {
    hide IterState, Numbered, SweepInv, SettledFrom, Slack, Meet, Relink, TurnFor, LegalRelink, Tree.Valid, Graph.Valid;
    var b, bs := intToBb[k], intToBb[1..];
    assert b == bs[k - 1];
    IterFacts(g, t, node, intToBb, count, before, idom);
    TurnStarts(g, t, k, b, d);
    TurnStep(g, t, k, b, d);
    SlackDrops(t, bs, count, b, d);
    IterStateRelinks(g, t, node, intToBb, count, before, idom, b, d);
  }

  /** A turn that finds the link in place. */
  lemma SweepPasses(g: Graph, t0: Tree, t: Tree, k: int, node: map<Block, int>, intToBb: seq<Block>, count: int,
                    before: map<Block, Block>, idom: map<Block, Block>, changed: bool)
    requires SweepState(g, t0, t, k, node, intToBb, count, before, idom, changed) && 1 <= k < |intToBb|
    requires g.Valid() && Numbered(g, t) && intToBb[k] in t.node && intToBb[k] in idom
        && Meet(g, t, idom[intToBb[k]], intToBb[k])
    ensures SweepState(g, t0, t, k - 1, node, intToBb, count, before, idom, changed)
  {
    hide IterState, Numbered, SweepInv, SettledFrom, Slack, Meet, TurnFor, Tree.Valid, Graph.Valid;
    var b := intToBb[k];
    IterFacts(g, t, node, intToBb, count, before, idom);
    TurnStarts(g, t, k, b, idom[b]);
    TurnUnchanged(g, t, k, b, idom[b]);
    SettledNext(g, t, k, b, changed);
  }

  lemma SweepDone(g: Graph, t0: Tree, t: Tree, k: int, node: map<Block, int>, intToBb: seq<Block>, count: int,
                  before: map<Block, Block>, idom: map<Block, Block>, changed: bool)
    requires SweepState(g, t0, t, k, node, intToBb, count, before, idom, changed) && k < 1
    ensures IterState(g, t, node, intToBb, count, before, idom) && g.Valid() && t.Valid() && Numbered(g, t)
        && SweepInv(g, t, count)
    ensures |intToBb| == count + 1
    ensures if changed then Slack(t, intToBb[1..], count) < Slack(t0, intToBb[1..], count)
        else t == t0 && Fixpoint(g, t)
  {
    hide IterState, Numbered, SweepInv, SettledFrom, Slack, Fixpoint, Tree.Valid, Graph.Valid;
    IterFacts(g, t, node, intToBb, count, before, idom);
    if !changed { SweepEnds(g, t); }
    SweepRestarts(g, t);
  }

  lemma SettledAtTop(g: Graph, t: Tree)
    requires g.Valid() && t.Valid() && Numbered(g, t)
    ensures SettledFrom(g, t, t.node[t.entry])
  {
  }

  lemma TurnStarts(g: Graph, t: Tree, k: int, b: Block, d: Block)
    requires g.Valid() && t.Valid() && Numbered(g, t) && SweepInv(g, t, k + 1)
    requires b in t.node && b != t.entry && t.node[b] == k && Meet(g, t, d, b)
    ensures TurnFor(g, t, k, b, d) && d != NULL && (t.Processed(b) <==> b in t.done)
  {
  }

  lemma IterStateRelinks(g: Graph, t: Tree, node: map<Block, int>, intToBb: seq<Block>, count: int,
                         before: map<Block, Block>, idom: map<Block, Block>, b: Block, d: Block)
    requires IterState(g, t, node, intToBb, count, before, idom) && b in node && d != NULL
    requires Relink(t, b, d).Valid() && Numbered(g, Relink(t, b, d))
    ensures IterState(g, Relink(t, b, d), node, intToBb, count, before, idom[b := d])
  {
    RelinkIsTreeOf(g, t, node, idom[b := d], b, d);
  }

  /** What the iteration leaves alone: only numbered blocks get links. */
  ghost predicate LinkFrame(g: Graph, node: map<Block, int>, before: map<Block, Block>, after: map<Block, Block>) {
    && after.Keys == before.Keys
    && (forall b :: b in after && b !in node ==> after[b] == before[b])
  }

  lemma PredLinks(g: Graph, t: Tree, idom: map<Block, Block>, b: Block)
    requires g.Valid() && Numbered(g, t) && b in g.blocks && t.idom == idom
    requires forall c :: c in g.blocks ==> c in idom
    requires forall c :: c in g.blocks && c !in t.node ==> idom[c] == NULL
    ensures forall q :: q in g.pre[b] ==> q in idom && q != NULL && (idom[q] != NULL <==> t.Processed(q))
  {
    forall q | q in g.pre[b]
      ensures q in idom && q != NULL && (idom[q] != NULL <==> t.Processed(q))
    {
      PredInBlocks(g, b, q);
    }
  }

  lemma RelinkIsTreeOf(g: Graph, t: Tree, node: map<Block, int>, idom: map<Block, Block>, b: Block, d: Block)
    requires |g.blocks| > 0 && d != NULL && b in t.node && b in t.idom
    requires t == TreeOf(g, node, t.idom) && idom == t.idom[b := d]
    ensures Relink(t, b, d) == TreeOf(g, node, idom)
  {
  }

  lemma SettledNext(g: Graph, t: Tree, k: int, b: Block, changed: bool)
    requires g.Valid() && Numbered(g, t) && b in t.node && t.node[b] == k && t.Processed(b) && Settled(g, t, b)
    requires !changed ==> SettledFrom(g, t, k + 1)
    ensures !changed ==> SettledFrom(g, t, k)
  {
    if !changed {
      forall c | t.Processed(c) && c != t.entry && t.node[c] >= k
        ensures Settled(g, t, c)
      {
        if c != b {
          assert t.node[c] != t.node[b];
        }
      }
    }
  }

  // ---------- the initial tree ----------

  lemma InitialTree(g: Graph, node: map<Block, int>, intToBb: seq<Block>, count: int, idom: map<Block, Block>)
    requires g.Valid() && Postorder(g, node, intToBb, count)
    requires forall b :: b in g.blocks ==> b in idom
    requires forall b :: b in g.blocks ==> (idom[b] != NULL <==> b == g.Entry())
    requires idom[g.Entry()] == g.Entry()
    ensures TreeOf(g, node, idom).Valid() && Numbered(g, TreeOf(g, node, idom))
    ensures OnlyEntryProcessed(TreeOf(g, node, idom))
  {
    var t := TreeOf(g, node, idom);
    assert t.Valid();
    forall b | b in t.node && b != t.entry
      ensures HasForwardPred(g, t, b)
    {
      assert ForwardPredIn(g, node, b);
    }
  }

  /** Every processed block among the first n predecessors of b has f above it, and
      f is above no less than the common ancestors of all of them. */
  ghost predicate MeetSoFar(g: Graph, t: Tree, b: Block, n: nat, f: Block)
    requires g.Valid() && Numbered(g, t) && b in t.node && b in g.pre && n <= |g.pre[b]|
  {
    && t.Processed(f)
    && (forall i :: 0 <= i < n && t.Processed(g.pre[b][i]) ==> t.Anc(f, g.pre[b][i]))
    && (forall x {:trigger t.Anc(x, f)} :: CommonAnc(g, t, x, b) ==> t.Anc(x, f))
  }

  lemma MeetReady(g: Graph, t: Tree, b: Block)
    requires g.Valid() && Numbered(g, t) && b in t.node && b in g.blocks
    ensures t.Valid() && b in g.pre
  {
  }

  lemma MeetStarts(g: Graph, t: Tree, b: Block, f: Block)
    requires g.Valid() && Numbered(g, t) && b in t.node && b in g.pre && f in g.pre[b] && t.Processed(f)
    ensures MeetSoFar(g, t, b, 0, f)
  {
  }

  lemma MeetLinked(g: Graph, t: Tree, b: Block, n: nat, f: Block)
    requires g.Valid() && Numbered(g, t) && b in t.node && b in g.pre && n <= |g.pre[b]| && MeetSoFar(g, t, b, n, f)
    ensures t.Processed(f)
  {
  }

  lemma MeetAdds(g: Graph, t: Tree, b: Block, n: nat, f: Block, f': Block)
    requires g.Valid() && Numbered(g, t) && b in t.node && b in g.pre && n < |g.pre[b]| && MeetSoFar(g, t, b, n, f)
    requires var q := g.pre[b][n];
        t.Processed(q) && t.Processed(f') && t.Anc(f', q) && t.Anc(f', f) && CommonBelow(t, q, f, f')
    ensures MeetSoFar(g, t, b, n + 1, f')
  {
    hide Graph.Valid, CommonAnc;
    forall i | 0 <= i < n && t.Processed(g.pre[b][i])
      ensures t.Anc(f', g.pre[b][i])
    {
      AncTransitive(t, f', f, g.pre[b][i]);
    }
    forall x | CommonAnc(g, t, x, b)
      ensures t.Anc(x, f')
    {
      CommonIsAbove(g, t, b, n, x);
    }
  }

  lemma CommonIsAbove(g: Graph, t: Tree, b: Block, n: nat, x: Block)
    requires g.Valid() && Numbered(g, t) && b in t.node && b in g.pre && n < |g.pre[b]| && t.Processed(g.pre[b][n])
        && CommonAnc(g, t, x, b)
    ensures t.Anc(x, g.pre[b][n])
  {
  }

  lemma MeetSkips(g: Graph, t: Tree, b: Block, n: nat, f: Block)
    requires g.Valid() && Numbered(g, t) && b in t.node && b in g.pre && n < |g.pre[b]| && MeetSoFar(g, t, b, n, f)
    requires g.pre[b][n] == f || !t.Processed(g.pre[b][n])
    ensures MeetSoFar(g, t, b, n + 1, f)
  {
  }

  lemma MeetDone(g: Graph, t: Tree, b: Block, f: Block)
    requires g.Valid() && Numbered(g, t) && b in t.node && b in g.pre && MeetSoFar(g, t, b, |g.pre[b]|, f)
    ensures Meet(g, t, f, b)
  {
    forall p | p in g.pre[b] && t.Processed(p) ensures t.Anc(f, p) {
      var i :| 0 <= i < |g.pre[b]| && g.pre[b][i] == p;
    }
  }

  lemma StepFinger(t: Tree, a: Block, f: Block)
    requires t.Valid() && a in t.node && t.Processed(f) && t.Anc(f, a) && t.node[f] < t.node[t.entry]
    ensures t.Processed(t.idom[f]) && t.Anc(t.idom[f], a) && t.node[t.idom[f]] > t.node[f]
  {
    AncTransitive(t, t.idom[f], f, a);
  }

  lemma AboveBoth(t: Tree, x: Block, low: Block, high: Block)
    requires t.Valid() && t.Processed(low) && t.Processed(high) && t.node[low] < t.node[high]
    requires t.Anc(x, low) && t.Anc(x, high)
    ensures low != t.entry && t.Anc(x, t.idom[low])
  {
    AncHigher(t, x, high);
  }

  /** A common ancestor is never the lower of two different fingers. */
  lemma CommonAboveStep(t: Tree, a: Block, b: Block, low: Block, high: Block)
    requires t.Valid() && a in t.node && b in t.node
    requires t.Processed(low) && t.Processed(high) && t.node[low] < t.node[high]
    requires CommonBelow(t, a, b, low) && CommonBelow(t, a, b, high)
    ensures low != t.entry
    ensures CommonBelow(t, a, b, t.idom[low])
  {
    forall x | t.Anc(x, a) && t.Anc(x, b)
      ensures t.Anc(x, t.idom[low])
    {
      AboveBoth(t, x, low, high);
    }
  }

  // ---------- the frontier table during the walks ----------

  /** The table gains b exactly at the blocks visited by walks from ps. */
  ghost predicate FrontierAfter(t: Tree, before: map<Block, set<Block>>, after: map<Block, set<Block>>, b: Block,
          ps: seq<Block>)
    requires t.Valid() && b in t.idom
  {
    && after.Keys == before.Keys
    && forall x :: x in after ==> after[x] == before[x] + (if VisitedFrom(t, b, ps, x) then {b} else {})
  }

  ghost predicate FrontierWalked(t: Tree, before: map<Block, set<Block>>, after: map<Block, set<Block>>, b: Block,
          p: Block, r: Block)
    requires t.Valid() && b in t.idom
  {
    && after.Keys == before.Keys
    && forall x :: x in after ==> after[x] == before[x] + (if WalkedTo(t, b, p, r, x) then {b} else {})
  }

  lemma WalkEntry(g: Graph, t: Tree, f: map<Block, set<Block>>, b: Block, p: Block)
    requires Analysed(g, t) && b in t.node && p in t.node && b in t.idom
    ensures FrontierWalked(t, f, f, b, p, p)
  {
    forall x
      ensures !WalkedTo(t, b, p, p, x)
    {
      if WalkedTo(t, b, p, p, x) {
        AncHigher(t, x, p);
      }
    }
  }

  lemma FrontierStep(g: Graph, t: Tree, f0: map<Block, set<Block>>, f1: map<Block, set<Block>>, b: Block, p: Block,
          r: Block, s: Block)
    requires t.Valid() && b in t.idom && FrontierWalked(t, f0, f1, b, p, r) && r in f1
    requires forall x :: WalkedTo(t, b, p, s, x) <==> WalkedTo(t, b, p, r, x) || x == r
    ensures FrontierWalked(t, f0, f1[r := f1[r] + {b}], b, p, s)
  {
  }

  lemma FrontierWalkEnds(t: Tree, f0: map<Block, set<Block>>, f: map<Block, set<Block>>, b: Block, p: Block)
    requires t.Valid() && b in t.idom && FrontierWalked(t, f0, f, b, p, t.idom[b])
    ensures FrontierAfter(t, f0, f, b, [p])
  {
    forall x
      ensures VisitedFrom(t, b, [p], x) <==> WalkedTo(t, b, p, t.idom[b], x)
    {
      assert p in [p];
      assert Visits(t, b, p, x) <==> WalkedTo(t, b, p, t.idom[b], x);
    }
  }

  lemma FrontierNoPreds(t: Tree, f: map<Block, set<Block>>, b: Block)
    requires t.Valid() && b in t.idom
    ensures forall ps :: ps == [] ==> FrontierAfter(t, f, f, b, ps)
  {
  }

  lemma FrontierNextPred(t: Tree, f0: map<Block, set<Block>>, f1: map<Block, set<Block>>, f2: map<Block, set<Block>>,
                         b: Block, ps: seq<Block>, j: nat)
    requires t.Valid() && b in t.idom && j < |ps|
    requires FrontierAfter(t, f0, f1, b, ps[..j]) && FrontierAfter(t, f1, f2, b, [ps[j]])
    ensures FrontierAfter(t, f0, f2, b, ps[..j + 1])
  {
    assert ps[..j + 1] == ps[..j] + [ps[j]];
    forall x
      ensures VisitedFrom(t, b, ps[..j + 1], x) <==> VisitedFrom(t, b, ps[..j], x) || VisitedFrom(t, b, [ps[j]], x)
    {
      assert ps[j] in [ps[j]];
    }
  }

  /** The table after the first n blocks have been handled. */
  ghost predicate FrontierOf(g: Graph, t: Tree, before: map<Block, set<Block>>, after: map<Block, set<Block>>, n: nat)
    requires Analysed(g, t) && n <= |g.blocks|
  {
    && after.Keys == before.Keys
    && forall x :: x in after ==>
        after[x] == before[x] + (set y | y in g.blocks[..n] && y in g.blocks && Recorded(g, t, x, y))
  }

  lemma FrontierNothing(g: Graph, t: Tree, f: map<Block, set<Block>>)
    requires Analysed(g, t)
    ensures FrontierOf(g, t, f, f, 0)
  {
  }

  lemma FrontierAll(g: Graph, t: Tree, f: map<Block, set<Block>>, f1: map<Block, set<Block>>)
    requires Analysed(g, t) && FrontierOf(g, t, f, f1, |g.blocks|)
    ensures f1.Keys == f.Keys
    ensures forall x :: x in f1 ==> f1[x] == f[x] + (set y | y in g.blocks && Recorded(g, t, x, y))
  {
    assert g.blocks[..|g.blocks|] == g.blocks;
    forall x | x in f1
      ensures (set y | y in g.blocks[..|g.blocks|] && y in g.blocks && Recorded(g, t, x, y))
          == (set y | y in g.blocks && Recorded(g, t, x, y))
    {
    }
  }

  lemma JoinFacts(g: Graph, t: Tree, i: nat)
    requires Analysed(g, t) && i < |g.blocks|
    ensures t.Valid() && g.blocks[i] in t.idom && g.blocks[i] in g.pre && g.Valid()
  {
  }

  lemma PredFacts(g: Graph, t: Tree, b: Block, p: Block)
    requires Analysed(g, t) && PredsReachable(g) && b in g.blocks && p in g.pre[b]
    ensures p in g.blocks && (b in t.node <==> p in t.node)
  {
    PredInBlocks(g, b, p);
    if p in t.node {
      assert Reachable(g, p);
      SuccReachable(g, p, b);
    }
    if b in t.node {
      assert Reachable(g, b);
      assert Reachable(g, p);
    }
  }

  lemma FrontierNextBlock(g: Graph, t: Tree, f: map<Block, set<Block>>, f0: map<Block, set<Block>>,
          f1: map<Block, set<Block>>, i: nat)
    requires Analysed(g, t) && i < |g.blocks|
    requires g.blocks[i] in t.idom && g.blocks[i] in g.pre
    requires FrontierOf(g, t, f, f0, i)
    requires |g.pre[g.blocks[i]]| < 2 ==> f1 == f0
    requires |g.pre[g.blocks[i]]| >= 2 ==> FrontierAfter(t, f0, f1, g.blocks[i], g.pre[g.blocks[i]])
    ensures FrontierOf(g, t, f, f1, i + 1)
  {
    hide Fixpoint, Numbered, Recorded, VisitedFrom;
    assert g.blocks[..i + 1] == g.blocks[..i] + [g.blocks[i]];
    forall x | x in f1
      ensures f1[x] == f[x] + (set y | y in g.blocks[..i + 1] && y in g.blocks && Recorded(g, t, x, y))
    {
      RecordedNext(g, t, g.blocks[..i], g.blocks[i], x);
    }
  }

  lemma RecordedNext(g: Graph, t: Tree, bs: seq<Block>, b: Block, x: Block)
    requires Analysed(g, t) && b in g.blocks && b in t.idom
    ensures (set y | y in bs + [b] && y in g.blocks && Recorded(g, t, x, y))
            == (set y | y in bs && y in g.blocks && Recorded(g, t, x, y))
               + (if |g.pre[b]| >= 2 && VisitedFrom(t, b, g.pre[b], x) then {b} else {})
  {
  }

  // ---------- the tables of several functions ----------

  function SuccsOf(m: map<Block, set<Block>>, x: Block): set<Block> {
    if x in m then m[x] else {}
  }

  /** Entries for blocks outside bs are unchanged. */
  ghost predicate OthersKept<V>(before: map<Block, V>, after: map<Block, V>, bs: seq<Block>) {
    && (forall b :: b in before && b !in bs ==> b in after && after[b] == before[b])
    && (forall b :: b in after && b !in bs ==> b in before)
  }

  ghost function Inserted<V>(m: map<Block, V>, bs: seq<Block>, v: V): map<Block, V> {
    m + map b | b in bs && b !in m :: v
  }

  lemma InsertedNone<V>(m: map<Block, V>, v: V)
    ensures forall bs :: bs == [] ==> Inserted(m, bs, v) == m
  {
  }

  lemma InsertedNext<V>(m: map<Block, V>, bs: seq<Block>, i: nat, v: V)
    requires i < |bs|
    ensures var m' := Inserted(m, bs[..i], v);
            Inserted(m, bs[..i + 1], v) == if bs[i] in m' then m' else m'[bs[i] := v]
  {
    var b := bs[i];
    var m0, m1 := Inserted(m, bs[..i], v), Inserted(m, bs[..i + 1], v);
    forall c
      ensures c in bs[..i + 1] <==> c in bs[..i] || c == b
    {
      assert bs[..i + 1] == bs[..i] + [b];
    }
    assert m1.Keys == m0.Keys + {b};
  }

  lemma InsertedFresh<V>(g: Graph, m: map<Block, V>, v: V)
    requires g.Valid() && forall b :: b in g.blocks ==> b !in m
    ensures forall b :: b in g.blocks ==> b in Inserted(m, g.blocks, v) && Inserted(m, g.blocks, v)[b] == v
    ensures NULL !in m ==> NULL !in Inserted(m, g.blocks, v)
  {
  }

  ghost function ChildrenIn(idom: map<Block, Block>, bs: seq<Block>, x: Block): set<Block>
    requires forall b :: b in bs ==> b in idom
  {
    set b | b in bs && idom[b] != b && idom[b] == x
  }

  /** The child table gains exactly the children found among bs. */
  ghost predicate TreeSuccAfter(before: map<Block, set<Block>>, after: map<Block, set<Block>>,
          idom: map<Block, Block>, bs: seq<Block>)
  {
    && (forall b :: b in bs ==> b in idom)
    && (forall x :: x in before ==> x in after)
    && (forall x {:trigger SuccsOf(after, x)} :: SuccsOf(after, x) == SuccsOf(before, x) + ChildrenIn(idom, bs, x))
    && (forall x :: x in after && x !in before ==> ChildrenIn(idom, bs, x) != {})
  }

  lemma ChildrenNext(idom: map<Block, Block>, bs: seq<Block>, i: nat, x: Block)
    requires i < |bs| && (forall b :: b in bs ==> b in idom)
    ensures bs[i] in bs && (forall b :: b in bs[..i] ==> b in bs) && (forall b :: b in bs[..i + 1] ==> b in bs)
    ensures ChildrenIn(idom, bs[..i + 1], x)
            == ChildrenIn(idom, bs[..i], x) + (if idom[bs[i]] != bs[i] && idom[bs[i]] == x then {bs[i]} else {})
  {
    assert bs[i] in bs;
    assert bs[..i + 1] == bs[..i] + [bs[i]];
  }

  lemma TreeSuccAdds(before: map<Block, set<Block>>, after: map<Block, set<Block>>, idom: map<Block, Block>,
                     bs: seq<Block>, bs': seq<Block>, p: Block)
    requires TreeSuccAfter(before, after, idom, bs)
    requires (forall b :: b in bs' ==> b in idom) && p in idom && idom[p] != p
    requires forall x {:trigger ChildrenIn(idom, bs', x)} ::
               ChildrenIn(idom, bs', x) == ChildrenIn(idom, bs, x) + (if idom[p] == x then {p} else {})
    ensures TreeSuccAfter(before, after[idom[p] := SuccsOf(after, idom[p]) + {p}], idom, bs')
  {
    var d := idom[p];
    var after' := after[d := SuccsOf(after, d) + {p}];
    assert p in ChildrenIn(idom, bs', d);
    forall x
      ensures SuccsOf(after', x) == SuccsOf(before, x) + ChildrenIn(idom, bs', x)
    {
      assert SuccsOf(after, x) == SuccsOf(before, x) + ChildrenIn(idom, bs, x);
    }
    forall x | x in after' && x !in before
      ensures ChildrenIn(idom, bs', x) != {}
    {
    }
  }

  lemma TreeSuccNext(before: map<Block, set<Block>>, after: map<Block, set<Block>>, idom: map<Block, Block>,
          bs: seq<Block>, i: nat)
    requires i < |bs| && (forall b :: b in bs ==> b in idom)
    requires TreeSuccAfter(before, after, idom, bs[..i])
    ensures bs[i] in bs && bs[i] in idom
    ensures idom[bs[i]] == bs[i] ==> TreeSuccAfter(before, after, idom, bs[..i + 1])
    ensures idom[bs[i]] != bs[i] ==>
              TreeSuccAfter(before, after[idom[bs[i]] := SuccsOf(after, idom[bs[i]]) + {bs[i]}], idom, bs[..i + 1])
  {
    var p := bs[i];
    ChildrenNext(idom, bs, i, p);
    forall x
      ensures ChildrenIn(idom, bs[..i + 1], x)
              == ChildrenIn(idom, bs[..i], x) + (if idom[p] != p && idom[p] == x then {p} else {})
    {
      ChildrenNext(idom, bs, i, x);
    }
    if idom[p] != p {
      TreeSuccAdds(before, after, idom, bs[..i], bs[..i + 1], p);
    }
  }

  lemma TreeSuccFacts(g: Graph, before: map<Block, set<Block>>, after: map<Block, set<Block>>, idom: map<Block, Block>)
    requires g.Valid() && TreeSuccAfter(before, after, idom, g.blocks)
    ensures forall x :: x in before ==> x in after
    ensures forall x :: x in after ==>
              after[x] == SuccsOf(before, x) + (set b | b in g.blocks && idom[b] != b && idom[b] == x)
  {
    forall x | x in after
      ensures after[x] == SuccsOf(before, x) + (set b | b in g.blocks && idom[b] != b && idom[b] == x)
    {
      assert SuccsOf(after, x) == SuccsOf(before, x) + ChildrenIn(idom, g.blocks, x);
    }
  }

  lemma IterIsAnalysed(g: Graph, t: Tree, node: map<Block, int>, intToBb: seq<Block>, count: int,
                       before: map<Block, Block>, idom: map<Block, Block>)
    requires IterState(g, t, node, intToBb, count, before, idom) && Fixpoint(g, t)
    ensures Analysed(g, t) && t.idom == idom && idom.Keys == before.Keys
    ensures forall b :: b in idom && b !in g.blocks ==> idom[b] == before[b]
    ensures forall b :: b in g.blocks ==> b in idom
  {
  }

  lemma KeptAfterInsert<V>(m: map<Block, V>, m1: map<Block, V>, m2: map<Block, V>, bs: seq<Block>, v: V)
    requires m1 == Inserted(m, bs, v) && m2.Keys == m1.Keys
    requires forall b :: b in m2 && b !in bs ==> m2[b] == m1[b]
    ensures OthersKept(m, m2, bs)
  {
  }

  lemma RecordedInside(g: Graph, t: Tree, x: Block, y: Block)
    requires Analysed(g, t) && PredsReachable(g) && y in g.blocks && Recorded(g, t, x, y)
    ensures x in g.blocks
  {
    var p :| p in g.pre[y] && Visits(t, y, p, x);
    PredInBlocks(g, y, p);
  }

  lemma NothingRecorded(g: Graph, t: Tree, x: Block)
    requires Analysed(g, t) && PredsReachable(g) && x !in g.blocks
    ensures (set y | y in g.blocks && Recorded(g, t, x, y)) == {}
  {
    hide Fixpoint, Numbered, PredsReachable, Recorded;
    forall y | y in g.blocks
      ensures !Recorded(g, t, x, y)
    {
      if Recorded(g, t, x, y) {
        RecordedInside(g, t, x, y);
      }
    }
  }

  lemma FrontierKept(g: Graph, t: Tree, f: map<Block, set<Block>>, f0: map<Block, set<Block>>,
          f1: map<Block, set<Block>>)
    requires Analysed(g, t) && PredsReachable(g)
    requires f0 == Inserted(f, g.blocks, {}) && FrontierOf(g, t, f0, f1, |g.blocks|)
    ensures OthersKept(f, f1, g.blocks)
  {
    hide Fixpoint, Numbered, PredsReachable, Recorded, Inserted, OthersKept, FrontierOf;
    FrontierAll(g, t, f0, f1);
    forall x | x in f1 && x !in g.blocks
      ensures f1[x] == f0[x]
    {
      NothingRecorded(g, t, x);
      assert f0[x] + {} == f0[x];
    }
    KeptAfterInsert(f, f0, f1, g.blocks, {});
  }

  lemma TreeSuccKept(g: Graph, t: Tree, s: map<Block, set<Block>>, s0: map<Block, set<Block>>,
          s1: map<Block, set<Block>>, idom: map<Block, Block>)
    requires Analysed(g, t) && t.idom == idom
    requires s0 == Inserted(s, g.blocks, {}) && TreeSuccAfter(s0, s1, idom, g.blocks)
    ensures OthersKept(s, s1, g.blocks + [NULL])
  {
    forall x | x !in g.blocks + [NULL]
      ensures ChildrenIn(idom, g.blocks, x) == {}
    {
      forall b | b in g.blocks
        ensures idom[b] in g.blocks || idom[b] == NULL
      {
      }
    }
    forall x | x in s && x !in g.blocks + [NULL]
      ensures x in s1 && s1[x] == s[x]
    {
      assert x in s0 && s0[x] == s[x];
      assert SuccsOf(s1, x) == SuccsOf(s0, x) + ChildrenIn(idom, g.blocks, x);
    }
  }

  lemma FrontierTableHolds(g: Graph, t: Tree, f0: map<Block, set<Block>>, f: map<Block, set<Block>>)
    requires Analysed(g, t) && PredsReachable(g)
    requires forall b :: b in g.blocks ==> b in f0 && f0[b] == {}
    requires f.Keys == f0.Keys
    requires forall x :: x in f ==> f[x] == f0[x] + (set y | y in g.blocks && Recorded(g, t, x, y))
    ensures forall x, y ::
        x in g.blocks && Reachable(g, x) ==> (y in f[x] <==> y in g.blocks && InRecordedFrontier(g, x, y))
    ensures forall x, y :: x in g.blocks && !Reachable(g, x) && y in f[x] ==> y in g.blocks && !Reachable(g, y)
  {
    forall x, y | x in g.blocks && Reachable(g, x)
      ensures y in f[x] <==> y in g.blocks && InRecordedFrontier(g, x, y)
    {
      if y in g.blocks {
        RecordedInPaths(g, t, x, y);
      }
    }
    forall x, y | x in g.blocks && !Reachable(g, x) && y in f[x]
      ensures y in g.blocks && !Reachable(g, y)
    {
      RecordedOnlyUnreachable(g, t, x, y);
    }
  }

  lemma TablesHold(g: Graph, t: Tree, idom: map<Block, Block>, f0: map<Block, set<Block>>, f: map<Block, set<Block>>,
                   s0: map<Block, set<Block>>, s: map<Block, set<Block>>)
    requires Analysed(g, t) && PredsReachable(g) && t.idom == idom
    requires forall b :: b in g.blocks ==> b in f0 && f0[b] == {} && b in s0 && s0[b] == {}
    requires FrontierOf(g, t, f0, f, |g.blocks|)
    requires forall x :: x in s0 ==> x in s
    requires forall x :: x in s ==> s[x] == SuccsOf(s0, x) + (set b | b in g.blocks && idom[b] != b && idom[b] == x)
    ensures Tables(g, idom, f, s)
  {
    FrontierAll(g, t, f0, f);
    FrontierTableHolds(g, t, f0, f);
    forall b | b in g.blocks && Reachable(g, b) && b != g.Entry()
      ensures IDom(g, idom[b], b)
    {
      LinkIsIDom(g, t, b);
    }
    hide Recorded, InRecordedFrontier, Reachable, IDom, PredsReachable;
  }

  lemma TablesKept(g: Graph, bs: seq<Block>, idom0: map<Block, Block>, f0: map<Block, set<Block>>,
          s0: map<Block, set<Block>>,
                   idom: map<Block, Block>, f: map<Block, set<Block>>, s: map<Block, set<Block>>)
    requires Tables(g, idom0, f0, s0)
    requires forall b :: b in g.blocks ==> b !in bs && b != NULL
    requires OthersKept(idom0, idom, bs) && OthersKept(f0, f, bs) && OthersKept(s0, s, bs + [NULL])
    ensures Tables(g, idom, f, s)
  {
    forall b | b in g.blocks
      ensures b in idom && b in f && b in s && idom[b] == idom0[b] && f[b] == f0[b] && s[b] == s0[b]
    {
      assert b !in bs + [NULL];
    }
  }
}
