/** Two graphs on which the frontier computation falls short. */
module FrontierLimits {
  import opened Cfg
  import opened DomTree
  import opened Frontier

  // ---------- a runner that never stops ----------

  /** What the builder makes of a loop whose body returns in both branches of an if:
      0 enters the condition 1, which goes to the body 2 or leaves to 3; the body goes
      to 4 or 5, which return; 6, after the if, is reached by nothing and goes back to 1. */
  function ReturnLoop(): Graph {
    Graph([0, 1, 2, 3, 4, 5, 6], map b | 0 <= b < 7 :: Succs(b), map b | 0 <= b < 7 :: Preds(b))
  }

  function Succs(b: Block): seq<Block> {
    if b == 0 || b == 6 then [1] else if b == 1 then [2, 3] else if b == 2 then [4, 5] else []
  }

  function Preds(b: Block): seq<Block> {
    if b == 1 then [6, 0] else if b == 2 || b == 3 then [1] else if b == 4 || b == 5 then [2] else []
  }

  lemma Mirrored(b: Block, s: Block)
    ensures s in Succs(b) <==> b in Preds(s)
    ensures s in Succs(b) ==> 0 <= s < 7
    ensures s in Preds(b) ==> 0 <= s < 7
  {
  }

  lemma ReturnLoopBlocks()
    ensures forall b :: b in ReturnLoop().blocks <==> 0 <= b < 7
    ensures |ReturnLoop().blocks| == 7 && forall i :: 0 <= i < 7 ==> ReturnLoop().blocks[i] == i
  {
    hide Succs, Preds;
  }

  lemma ReturnLoopEdges()
    ensures forall b :: b in ReturnLoop().succ <==> 0 <= b < 7
    ensures forall b :: b in ReturnLoop().pre <==> 0 <= b < 7
    ensures forall b :: 0 <= b < 7 ==> ReturnLoop().succ[b] == Succs(b) && ReturnLoop().pre[b] == Preds(b)
  {
    hide Succs, Preds;
  }

  lemma ReturnLoopValid()
    ensures ReturnLoop().Valid()
  {
    hide ReturnLoop, Succs, Preds;
    ReturnLoopBlocks();
    ReturnLoopEdges();
    var g := ReturnLoop();
    forall b, s | 0 <= b < 7
      ensures s in g.succ[b] ==> 0 <= s < 7
      ensures s in g.pre[b] ==> 0 <= s < 7
    {
      Mirrored(b, s);
      Mirrored(s, b);
    }
    forall b, s | 0 <= b < 7 && 0 <= s < 7
      ensures s in g.succ[b] <==> b in g.pre[s]
    {
      Mirrored(b, s);
    }
  }

  lemma ConditionReached()
    requires ReturnLoop().Valid()
    ensures Reachable(ReturnLoop(), 1)
  {
    ReturnLoopBlocks();
    ReturnLoopEdges();
    hide ReturnLoop;
    assert PathTo(ReturnLoop(), [0, 1], 1);
  }

  lemma AfterIfUnreached()
    requires ReturnLoop().Valid()
    ensures !Reachable(ReturnLoop(), 6)
  {
    var g := ReturnLoop();
    ReturnLoopBlocks();
    ReturnLoopEdges();
    hide ReturnLoop;
    hide PathTo, Graph.Valid;
    if p :| PathTo(g, p, 6) {
      var closed := {0, 1, 2, 3, 4, 5};
      forall x, s | x in closed && x in g.blocks && s in g.succ[x] ensures s in closed {
        assert s in Succs(x);
      }
      ClosedHoldsPath(g, closed, p, 6);
    }
  }

  /** On this graph the walk from 6 towards the immediate dominator of 1 goes on for
      ever. */
  lemma WalkNeverEnds(t: Tree, n: nat)
    requires Analysed(ReturnLoop(), t) && NULL !in t.idom
    ensures 1 in t.idom && RunnerAfter(t, 6, n) != t.idom[1]
  {
    hide Fixpoint, Numbered, Reachable;
    var g := ReturnLoop();
    ReturnLoopBlocks();
    ReturnLoopEdges();
    assert 6 in Preds(1);
    ConditionReached();
    AfterIfUnreached();
    WalkEndsIff(g, t, 1, 6);
  }

  // ---------- a frontier that is missed ----------

  /** The entry jumps back to itself, or to 1. */
  function EntryLoop(): Graph {
    Graph([0, 1], map[0 := [0, 1], 1 := []], map[0 := [0], 1 := [0]])
  }

  lemma EntryLoopValid()
    ensures EntryLoop().Valid() && EntryLoop().Entry() == 0 && 0 in EntryLoop().pre && EntryLoop().pre[0] == [0]
  {
  }

  /** The entry is in its own dominance frontier, and is not recorded there. */
  lemma EntryFrontierMissed(t: Tree)
    requires Analysed(EntryLoop(), t)
    ensures InFrontier(EntryLoop(), 0, 0) && 0 in t.idom && !Recorded(EntryLoop(), t, 0, 0)
  {
    var g := EntryLoop();
    EntryLoopValid();
    assert 0 in g.blocks;
    EntryReachable(g);
    DomReflexive(g, 0);
    assert 0 in g.pre[0] && Dom(g, 0, 0);
  }
}
