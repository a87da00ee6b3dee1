/** The idom array read as a forest, and the two-finger meet computed on it. */
module DomTree {
  import opened Cfg

  /** The state of the iteration: the postorder numbers, the block with the
      highest number (the entry), the current idom links (NULL = none yet) and
      the numbered blocks that have a link. */
  datatype Tree = Tree(entry: Block, node: map<Block, int>, idom: map<Block, Block>, done: set<Block>) {

    predicate Processed(b: Block) {
      b in done
    }

    /** Links go from lower to strictly higher postorder numbers, up to the entry. */
    ghost predicate Valid() {
      && entry in node
      && Processed(entry)
      && NULL !in node
      && (forall b :: b in node ==> b in idom && 1 <= node[b] <= node[entry])
      && (forall b, c :: b in node && c in node && node[b] == node[c] ==> b == c)
      && (forall b :: b in done ==> b in node)
      && (forall b {:trigger idom[b]} :: b in node ==> (b in done <==> idom[b] != NULL))
      && (forall b {:trigger idom[b]} :: b in done && b != entry ==>
            Processed(idom[b]) && node[idom[b]] > node[b])
    }

    /** x lies on the chain of idom links that starts at b. */
    ghost predicate Anc(x: Block, b: Block)
      requires Valid() && b in node
      decreases node[entry] - node[b]
    {
      x == b || (b != entry && Processed(b) && Anc(x, idom[b]))
    }
  }

  lemma {:induction false} AncHigher(t: Tree, x: Block, b: Block)
    requires t.Valid() && b in t.node && t.Anc(x, b)
    ensures x in t.node
    ensures x == b || (t.Processed(x) && t.node[x] > t.node[b])
    decreases t.node[t.entry] - t.node[b]
  {
    if x != b {
      AncHigher(t, x, t.idom[b]);
    }
  }

  lemma {:induction false} AncTransitive(t: Tree, x: Block, y: Block, b: Block)
    requires t.Valid() && b in t.node && t.Anc(y, b) && y in t.node && t.Anc(x, y)
    ensures t.Anc(x, b)
    decreases t.node[t.entry] - t.node[b]
  {
    if y != b {
      AncTransitive(t, x, y, t.idom[b]);
    }
  }

  /** Two ancestors of one block are comparable, the lower-numbered one below. */
  lemma {:induction false} AncLinear(t: Tree, x: Block, y: Block, b: Block)
    requires t.Valid() && b in t.node && t.Anc(x, b) && t.Anc(y, b)
    requires x in t.node && y in t.node && t.node[x] <= t.node[y]
    ensures t.Anc(y, x)
    decreases t.node[t.entry] - t.node[b]
  {
    AncHigher(t, y, b);
    if x != b {
      AncHigher(t, x, b);
      AncLinear(t, x, y, t.idom[b]);
    }
  }

  lemma {:induction false} EntryIsRoot(t: Tree, b: Block)
    requires t.Valid() && t.Processed(b)
    ensures t.Anc(t.entry, b)
    decreases t.node[t.entry] - t.node[b]
  {
    if b != t.entry {
      EntryIsRoot(t, t.idom[b]);
    }
  }

  // ---------- one link is redirected ----------

  ghost function Relink(t: Tree, b: Block, d: Block): Tree {
    t.(idom := t.idom[b := d], done := t.done + {b})
  }

  /** A redirected link is legal when it still points upwards. */
  ghost predicate LegalRelink(t: Tree, b: Block, d: Block)
  {
    t.Valid() && b in t.node && b != t.entry && t.Processed(d) && t.node[d] > t.node[b]
  }

  lemma RelinkValid(t: Tree, b: Block, d: Block)
    requires LegalRelink(t, b, d)
    ensures Relink(t, b, d).Valid()
    ensures forall c :: t.Processed(c) ==> Relink(t, b, d).Processed(c)
    ensures forall c :: Relink(t, b, d).Processed(c) ==> t.Processed(c) || c == b
  {
    hide LegalRelink, Relink;
    var t' := Relink(t, b, d);
    RelinkKeepsNumbers(t, b, d);
    RelinkDone(t, b, d);
    forall c | c in t'.node
      ensures c in t'.idom && (c in t'.done <==> t'.idom[c] != NULL)
      ensures c in t'.done && c != t'.entry ==> t'.Processed(t'.idom[c]) && t'.node[t'.idom[c]] > t'.node[c]
    {
      RelinkedLink(t, b, d, c);
    }
  }

  lemma RelinkDone(t: Tree, b: Block, d: Block)
    ensures Relink(t, b, d).done == t.done + {b}
  {
  }

  lemma RelinkedLink(t: Tree, b: Block, d: Block, c: Block)
    requires LegalRelink(t, b, d) && c in t.node
    ensures var t' := Relink(t, b, d);
      && c in t'.idom && (c in t'.done <==> t'.idom[c] != NULL)
      && (c in t'.done && c != t'.entry ==> t'.Processed(t'.idom[c]) && t'.node[t'.idom[c]] > t'.node[c])
  {
    if c != b {
      assert Relink(t, b, d).idom[c] == t.idom[c];
    }
  }

  lemma RelinkKeepsNumbers(t: Tree, b: Block, d: Block)
    requires LegalRelink(t, b, d)
    ensures var t' := Relink(t, b, d);
      && t'.entry == t.entry && t'.node == t.node && t'.entry in t'.node && t'.Processed(t'.entry) && NULL !in t'.node
      && (forall c :: c in t'.node ==> c in t'.idom && 1 <= t'.node[c] <= t'.node[t'.entry])
      && (forall b, c :: b in t'.node && c in t'.node && t'.node[b] == t'.node[c] ==> b == c)
      && (forall c :: c in t'.done ==> c in t'.node)
  {
  }

  /** Chains that do not pass through b are unchanged. */
  lemma {:induction false} RelinkElsewhere(t: Tree, b: Block, d: Block, x: Block, c: Block)
    requires LegalRelink(t, b, d) && c in t.node && !t.Anc(b, c)
    ensures Relink(t, b, d).Valid()
    ensures Relink(t, b, d).Anc(x, c) <==> t.Anc(x, c)
    decreases t.node[t.entry] - t.node[c]
  {
    var t' := Relink(t, b, d);
    RelinkValid(t, b, d);
    if c != t.entry && t.Processed(c) {
      RelinkElsewhere(t, b, d, x, t.idom[c]);
      assert t'.idom[c] == t.idom[c];
    }
  }

  lemma RelinkAtTarget(t: Tree, b: Block, d: Block, x: Block)
    requires LegalRelink(t, b, d)
    ensures Relink(t, b, d).Valid()
    ensures Relink(t, b, d).Anc(x, d) <==> t.Anc(x, d)
    ensures Relink(t, b, d).Anc(x, b) <==> (x == b || t.Anc(x, d))
  {
    RelinkValid(t, b, d);
    if t.Anc(b, d) {
      AncHigher(t, b, d);
    }
    RelinkElsewhere(t, b, d, x, d);
  }

  /** Chains through b keep their part up to b and continue as b's new chain. */
  lemma {:induction false} RelinkThrough(t: Tree, b: Block, d: Block, x: Block, c: Block)
    requires LegalRelink(t, b, d) && c in t.node && t.Anc(b, c)
    ensures Relink(t, b, d).Valid()
    ensures Relink(t, b, d).Anc(b, c)
    ensures Relink(t, b, d).Anc(x, c) <==>
            ((x in t.node && t.node[x] <= t.node[b] && t.Anc(x, c)) || Relink(t, b, d).Anc(x, b))
    decreases t.node[t.entry] - t.node[c]
  {
    var t' := Relink(t, b, d);
    RelinkValid(t, b, d);
    if c == b {
      if t.Anc(x, c) {
        AncHigher(t, x, c);
      }
    } else {
      AncHigher(t, b, c);
      RelinkThrough(t, b, d, x, t.idom[c]);
      assert t'.idom[c] == t.idom[c];
      AncHigher(t, b, c);
    }
  }

  // ---------- the iteration invariant ----------

  ghost predicate HasForwardPred(g: Graph, t: Tree, b: Block)
    requires g.Valid() && t.Valid() && b in t.node && b in g.blocks
  {
    exists p :: p in g.pre[b] && p in t.node && t.node[p] > t.node[b]
  }

  /** What the depth-first numbering provides: exactly the reachable blocks are
      numbered, and each one other than the entry has a predecessor with a higher number. */
  ghost predicate Numbered(g: Graph, t: Tree)
    requires g.Valid()
  {
    && t.Valid()
    && t.entry == g.Entry()
    && t.idom[t.entry] == t.entry
    && (forall b {:trigger Reachable(g, b)} :: b in t.node <==> Reachable(g, b))
    && (forall b :: b in t.node ==> b in g.blocks)
    && (forall b {:trigger HasForwardPred(g, t, b)} :: b in t.node && b != t.entry ==> HasForwardPred(g, t, b))
  }

  /** x is an ancestor of every processed predecessor of b. */
  ghost predicate CommonAnc(g: Graph, t: Tree, x: Block, b: Block)
    requires g.Valid() && t.Valid() && b in g.blocks
  {
    forall p :: p in g.pre[b] && t.Processed(p) ==> t.Anc(x, p)
  }

  /** Soundness, stated link by link: no link jumps over a strict dominator. */
  ghost predicate LinksSound(g: Graph, t: Tree)
    requires g.Valid() && Numbered(g, t)
  {
    forall c, a :: t.Processed(c) && c != t.entry && SDom(g, a, c) ==> Dom(g, a, t.idom[c])
  }

  /** No link is above the meet of the predecessors: recomputing only raises links. */
  ghost predicate LinksLow(g: Graph, t: Tree)
    requires g.Valid() && Numbered(g, t)
  {
    forall c, x :: t.Processed(c) && c != t.entry && CommonAnc(g, t, x, c) ==> t.Anc(x, t.idom[c])
  }

  /** The link of c is an ancestor of each predecessor numbered above c. */
  ghost predicate AboveForward(g: Graph, t: Tree, c: Block)
    requires g.Valid() && Numbered(g, t) && t.Processed(c)
  {
    forall p :: p in g.pre[c] && p in t.node && t.node[p] > t.node[c] ==> t.Processed(p) && t.Anc(t.idom[c], p)
  }

  /** Blocks numbered k and above have had their turn in the current sweep. */
  ghost predicate TurnsDone(g: Graph, t: Tree, k: int)
    requires g.Valid() && Numbered(g, t)
  {
    && (forall c :: c in t.node && c != t.entry && t.node[c] >= k ==> t.Processed(c) && AboveForward(g, t, c))
    && (forall c :: t.Processed(c) && c != t.entry && t.node[c] < k && t.node[t.idom[c]] < k ==> AboveForward(g, t, c))
  }

  ghost predicate SweepInv(g: Graph, t: Tree, k: int)
    requires g.Valid() && Numbered(g, t)
  {
    LinksSound(g, t) && LinksLow(g, t) && TurnsDone(g, t, k)
  }

  /** The link of c is an ancestor of every processed predecessor of c. */
  ghost predicate Settled(g: Graph, t: Tree, c: Block)
    requires g.Valid() && Numbered(g, t) && t.Processed(c)
  {
    CommonAnc(g, t, t.idom[c], c)
  }

  /** d is the nearest common ancestor of the processed predecessors of b. */
  ghost predicate Meet(g: Graph, t: Tree, d: Block, b: Block)
    requires g.Valid() && Numbered(g, t) && b in t.node
  {
    && t.Processed(d)
    && CommonAnc(g, t, d, b)
    && forall x :: CommonAnc(g, t, x, b) ==> t.Anc(x, d)
  }

  // ---------- consequences of soundness ----------

  /** Dominators are ancestors. */
  lemma {:induction false} DomIsAnc(g: Graph, t: Tree, a: Block, b: Block)
    requires g.Valid() && Numbered(g, t) && LinksSound(g, t) && t.Processed(b) && Dom(g, a, b)
    ensures t.Anc(a, b)
    decreases t.node[t.entry] - t.node[b]
  {
    if a != b {
      if b == t.entry {
        OnlyEntryDominatesEntry(g, a);
      } else {
        DomIsAnc(g, t, a, t.idom[b]);
      }
    }
  }

  /** A dominator of b dominates everything on b's chain up to itself. */
  lemma {:induction false} DomAlongChain(g: Graph, t: Tree, a: Block, b: Block, y: Block)
    requires g.Valid() && Numbered(g, t) && LinksSound(g, t) && t.Processed(b) && Dom(g, a, b)
    requires t.Anc(y, b) && a in t.node && y in t.node && t.node[y] <= t.node[a]
    ensures Dom(g, a, y)
    decreases t.node[t.entry] - t.node[b]
  {
    if y != b {
      AncHigher(t, y, b);
      DomAlongChain(g, t, a, t.idom[b], y);
    }
  }

  /** The meet of the predecessors is still dominated by every strict dominator of b. */
  lemma MeetSound(g: Graph, t: Tree, d: Block, b: Block, a: Block)
    requires g.Valid() && Numbered(g, t) && LinksSound(g, t) && b in t.node && b != t.entry
    requires Meet(g, t, d, b) && SDom(g, a, b)
    requires exists p :: p in g.pre[b] && t.Processed(p)
    ensures Dom(g, a, d)
  {
    forall p | p in g.pre[b] && t.Processed(p)
      ensures Dom(g, a, p) && t.Anc(a, p)
    {
      SDomDominatesPred(g, a, b, p);
      DomIsAnc(g, t, a, p);
    }
    assert CommonAnc(g, t, a, b);
    var p :| p in g.pre[b] && t.Processed(p);
    AncHigher(t, a, p);
    AncHigher(t, a, d);
    DomAlongChain(g, t, a, p, d);
  }

  // ---------- one turn of the sweep ----------

  /** What is known when block b, numbered k, has its turn and d is the meet of
      its processed predecessors. */
  ghost predicate TurnFor(g: Graph, t: Tree, k: int, b: Block, d: Block)
  {
    && g.Valid() && Numbered(g, t) && SweepInv(g, t, k + 1)
    && b in t.node && b != t.entry && t.node[b] == k
    && Meet(g, t, d, b)
  }

  lemma ForwardPred(g: Graph, t: Tree, k: int, b: Block) returns (p: Block)
    requires g.Valid() && Numbered(g, t) && SweepInv(g, t, k + 1)
    requires b in t.node && b != t.entry && t.node[b] == k
    ensures p in g.pre[b] && t.Processed(p) && t.node[p] > k
  {
    assert HasForwardPred(g, t, b);
    p :| p in g.pre[b] && p in t.node && t.node[p] > t.node[b];
  }

  lemma TurnIsLegal(g: Graph, t: Tree, k: int, b: Block, d: Block)
    requires TurnFor(g, t, k, b, d)
    ensures LegalRelink(t, b, d)
    ensures Relink(t, b, d).Valid() && Numbered(g, Relink(t, b, d))
  {
    var p := ForwardPred(g, t, k, b);
    AncHigher(t, d, p);
    RelinkNumbered(g, t, b, d);
  }

  lemma RelinkNumbered(g: Graph, t: Tree, b: Block, d: Block)
    requires g.Valid() && Numbered(g, t) && LegalRelink(t, b, d)
    ensures Relink(t, b, d).Valid() && Numbered(g, Relink(t, b, d))
  {
    RelinkValid(t, b, d);
    var t' := Relink(t, b, d);
    forall c | c in t'.node && c != t'.entry
      ensures HasForwardPred(g, t', c)
    {
      assert HasForwardPred(g, t, c);
    }
  }

  /** Recomputing a link never lowers it. */
  lemma TurnRaises(g: Graph, t: Tree, k: int, b: Block, d: Block)
    requires TurnFor(g, t, k, b, d) && t.Processed(b)
    ensures t.Anc(d, t.idom[b])
    ensures d == t.idom[b] || t.node[d] > t.node[t.idom[b]]
  {
    AncHigher(t, d, t.idom[b]);
  }

  /** Redirecting b's link to the meet only removes ancestors from processed blocks. */
  lemma TurnShrinks(g: Graph, t: Tree, k: int, b: Block, d: Block, x: Block, c: Block)
    requires TurnFor(g, t, k, b, d) && t.Processed(c) && t.Processed(b)
    requires Relink(t, b, d).Valid() && Relink(t, b, d).Anc(x, c)
    ensures t.Anc(x, c)
  {
    TurnIsLegal(g, t, k, b, d);
    if t.Anc(b, c) {
      RelinkThrough(t, b, d, x, c);
      RelinkAtTarget(t, b, d, x);
      if !t.Anc(x, c) {
        TurnRaises(g, t, k, b, d);
        if x != b {
          AncHigher(t, d, t.idom[b]);
          AncTransitive(t, x, d, t.idom[b]);
          AncTransitive(t, x, b, c);
        }
      }
    } else {
      RelinkElsewhere(t, b, d, x, c);
    }
  }

  /** A block not yet processed is on no processed chain. */
  lemma UnprocessedNotAnc(t: Tree, b: Block, c: Block)
    requires t.Valid() && b in t.node && !t.Processed(b) && t.Processed(c)
    ensures !t.Anc(b, c)
  {
    if t.Anc(b, c) {
      AncHigher(t, b, c);
    }
  }

  lemma TurnKeepsAnc(g: Graph, t: Tree, k: int, b: Block, d: Block, x: Block, c: Block)
    requires TurnFor(g, t, k, b, d) && t.Processed(c)
    requires Relink(t, b, d).Valid() && Relink(t, b, d).Anc(x, c)
    requires c != b || t.Processed(b)
    ensures t.Anc(x, c)
  {
    if t.Processed(b) {
      TurnShrinks(g, t, k, b, d, x, c);
    } else {
      TurnIsLegal(g, t, k, b, d);
      UnprocessedNotAnc(t, b, c);
      RelinkElsewhere(t, b, d, x, c);
    }
  }

  /** Common ancestors only get fewer. */
  lemma TurnShrinksCommon(g: Graph, t: Tree, k: int, b: Block, d: Block, x: Block, c: Block)
    requires TurnFor(g, t, k, b, d) && c in g.blocks
    requires Relink(t, b, d).Valid() && CommonAnc(g, Relink(t, b, d), x, c)
    ensures CommonAnc(g, t, x, c)
  {
    TurnIsLegal(g, t, k, b, d);
    RelinkValid(t, b, d);
    forall p | p in g.pre[c] && t.Processed(p)
      ensures t.Anc(x, p)
    {
      TurnKeepsAnc(g, t, k, b, d, x, p);
    }
  }

  lemma TurnKeepsSound(g: Graph, t: Tree, k: int, b: Block, d: Block)
    requires TurnFor(g, t, k, b, d)
    ensures Relink(t, b, d).Valid() && Numbered(g, Relink(t, b, d)) && LinksSound(g, Relink(t, b, d))
  {
    TurnIsLegal(g, t, k, b, d);
    var t' := Relink(t, b, d);
    hide TurnFor, LegalRelink, Numbered, SDom, Dom;
    forall c, a | t'.Processed(c) && c != t'.entry && SDom(g, a, c)
      ensures Dom(g, a, t'.idom[c])
    {
      TurnKeepsSoundAt(g, t, k, b, d, c, a);
    }
  }

  lemma TurnKeepsSoundAt(g: Graph, t: Tree, k: int, b: Block, d: Block, c: Block, a: Block)
    requires TurnFor(g, t, k, b, d) && c in Relink(t, b, d).done && c != t.entry && SDom(g, a, c)
    ensures c in Relink(t, b, d).idom && Dom(g, a, Relink(t, b, d).idom[c])
  {
    hide SDom, Dom, Meet, AboveForward;
    var p := ForwardPred(g, t, k, b);
    if c == b {
      MeetSound(g, t, d, b, a);
    }
  }

  /** A block whose link goes to b or below sees b above its forward predecessor. */
  lemma TurnSeesForward(g: Graph, t: Tree, k: int, b: Block, d: Block, c: Block) returns (p: Block)
    requires TurnFor(g, t, k, b, d)
    requires t.Processed(c) && c != t.entry && c != b && t.Anc(b, t.idom[c])
    ensures p in g.pre[c] && t.Processed(p) && t.Anc(t.idom[c], p) && t.Anc(b, p)
  {
    AncHigher(t, b, t.idom[c]);
    assert AboveForward(g, t, c);
    assert HasForwardPred(g, t, c);
    p :| p in g.pre[c] && p in t.node && t.node[p] > t.node[c];
    AncTransitive(t, b, t.idom[c], p);
  }

  /** A chain that x was on, and that passes through b, keeps x as long as x is
      on the new chain of some block below. */
  lemma RelinkKeepsShared(t: Tree, b: Block, d: Block, x: Block, e: Block, p: Block)
    requires LegalRelink(t, b, d) && e in t.node && p in t.node
    requires t.Anc(x, e) && t.Anc(b, e) && t.Anc(b, p)
    requires Relink(t, b, d).Valid() && Relink(t, b, d).Anc(x, p)
    ensures Relink(t, b, d).Anc(x, e)
  {
    AncHigher(t, x, e);
    RelinkThrough(t, b, d, x, e);
    RelinkThrough(t, b, d, x, p);
  }

  lemma TurnKeepsLowAt(g: Graph, t: Tree, k: int, b: Block, d: Block, c: Block, x: Block)
    requires TurnFor(g, t, k, b, d)
    requires Relink(t, b, d).Valid() && Numbered(g, Relink(t, b, d))
    requires t.Processed(c) && c != t.entry && c != b && CommonAnc(g, Relink(t, b, d), x, c)
    requires t.Anc(x, t.idom[c])
    ensures Relink(t, b, d).Anc(x, t.idom[c])
  {
    var e := t.idom[c];
    if t.Anc(b, e) {
      var p := TurnSeesForward(g, t, k, b, d, c);
      assert Relink(t, b, d).Processed(p);
      TurnIsLegal(g, t, k, b, d);
      RelinkKeepsShared(t, b, d, x, e, p);
    } else {
      TurnIsLegal(g, t, k, b, d);
      RelinkElsewhere(t, b, d, x, e);
    }
  }

  lemma TurnKeepsLow(g: Graph, t: Tree, k: int, b: Block, d: Block)
    requires TurnFor(g, t, k, b, d)
    ensures Relink(t, b, d).Valid() && Numbered(g, Relink(t, b, d)) && LinksLow(g, Relink(t, b, d))
  {
    TurnIsLegal(g, t, k, b, d);
    var t' := Relink(t, b, d);
    forall c, x | t'.Processed(c) && c != t'.entry && CommonAnc(g, t', x, c)
      ensures t'.Anc(x, t'.idom[c])
    {
      TurnShrinksCommon(g, t, k, b, d, x, c);
      if c == b {
        RelinkAtTarget(t, b, d, x);
      } else {
        TurnKeepsLowAt(g, t, k, b, d, c, x);
      }
    }
  }

  /** Links below b's number look at chain segments that b's turn does not touch. */
  lemma RelinkKeepsForward(g: Graph, t: Tree, b: Block, d: Block, c: Block)
    requires g.Valid() && Numbered(g, t) && LegalRelink(t, b, d)
    requires Relink(t, b, d).Valid() && Numbered(g, Relink(t, b, d))
    requires t.Processed(c) && c != t.entry && c != b && AboveForward(g, t, c)
    requires t.node[c] > t.node[b] || t.node[t.idom[c]] <= t.node[b]
    ensures Relink(t, b, d).Processed(c) && AboveForward(g, Relink(t, b, d), c)
  {
    var t' := Relink(t, b, d);
    var e := t.idom[c];
    forall p | p in g.pre[c] && p in t.node && t.node[p] > t.node[c]
      ensures t'.Processed(p) && t'.Anc(e, p)
    {
      AncHigher(t, e, p);
      if t.Anc(b, p) {
        AncHigher(t, b, p);
        RelinkThrough(t, b, d, e, p);
      } else {
        RelinkElsewhere(t, b, d, e, p);
      }
    }
  }

  lemma RelinkMakesForward(g: Graph, t: Tree, b: Block, d: Block)
    requires g.Valid() && Numbered(g, t) && LegalRelink(t, b, d)
    requires forall p :: p in g.pre[b] && p in t.node && t.node[p] > t.node[b] ==> t.Processed(p) && t.Anc(d, p)
    requires Relink(t, b, d).Valid() && Numbered(g, Relink(t, b, d))
    ensures Relink(t, b, d).Processed(b) && AboveForward(g, Relink(t, b, d), b)
  {
    var t' := Relink(t, b, d);
    forall p | p in g.pre[b] && p in t.node && t.node[p] > t.node[b]
      ensures t'.Processed(p) && t'.Anc(d, p)
    {
      if t.Anc(b, p) {
        AncHigher(t, b, p);
      }
      RelinkElsewhere(t, b, d, d, p);
    }
  }

  lemma RelinkAdvances(g: Graph, t: Tree, k: int, b: Block, d: Block)
    requires g.Valid() && Numbered(g, t) && LegalRelink(t, b, d) && TurnsDone(g, t, k + 1)
    requires t.node[b] == k
    requires Relink(t, b, d).Valid() && Numbered(g, Relink(t, b, d))
    requires Relink(t, b, d).Processed(b) && AboveForward(g, Relink(t, b, d), b)
    ensures TurnsDone(g, Relink(t, b, d), k)
  {
    var t' := Relink(t, b, d);
    forall c | c in t'.node && c != t'.entry && t'.node[c] >= k
      ensures t'.Processed(c) && AboveForward(g, t', c)
    {
      if c != b {
        RelinkKeepsForward(g, t, b, d, c);
      }
    }
    forall c | t'.Processed(c) && c != t'.entry && t'.node[c] < k && t'.node[t'.idom[c]] < k
      ensures AboveForward(g, t', c)
    {
      assert t.Processed(c) && t.idom[c] == t'.idom[c];
      assert AboveForward(g, t, c);
      RelinkKeepsForward(g, t, b, d, c);
    }
  }

  lemma TurnAdvances(g: Graph, t: Tree, k: int, b: Block, d: Block)
    requires TurnFor(g, t, k, b, d)
    ensures Relink(t, b, d).Valid() && Numbered(g, Relink(t, b, d)) && TurnsDone(g, Relink(t, b, d), k)
  {
    TurnIsLegal(g, t, k, b, d);
    RelinkMakesForward(g, t, b, d);
    RelinkAdvances(g, t, k, b, d);
  }

  /** One turn of the sweep keeps the invariant, whether or not the link changes. */
  lemma TurnStep(g: Graph, t: Tree, k: int, b: Block, d: Block)
    requires TurnFor(g, t, k, b, d)
    ensures LegalRelink(t, b, d)
    ensures Relink(t, b, d).Valid() && Numbered(g, Relink(t, b, d)) && SweepInv(g, Relink(t, b, d), k)
    ensures t.Processed(b) && d != t.idom[b] ==> t.node[d] > t.node[t.idom[b]]
  {
    TurnIsLegal(g, t, k, b, d);
    TurnKeepsSound(g, t, k, b, d);
    TurnKeepsLow(g, t, k, b, d);
    TurnAdvances(g, t, k, b, d);
    if t.Processed(b) {
      TurnRaises(g, t, k, b, d);
    }
  }

  // ---------- the fixpoint ----------

  /** All reachable blocks are processed and every link is the settled one. */
  ghost predicate Fixpoint(g: Graph, t: Tree)
    requires g.Valid() && Numbered(g, t)
  {
    && LinksSound(g, t)
    && (forall c :: c in t.node ==> t.Processed(c))
    && (forall c :: c in t.node && c != t.entry ==> Settled(g, t, c))
  }

  /** At the fixpoint ancestors lie on every path. */
  lemma {:induction false} AncOnPath(g: Graph, t: Tree, x: Block, b: Block, p: seq<Block>)
    requires g.Valid() && Numbered(g, t) && Fixpoint(g, t)
    requires PathTo(g, p, b) && b in t.node && t.Anc(x, b)
    ensures x in p
    decreases |p|
  {
    assert p[|p| - 1] == b;
    if x != b {
      PathLastStep(g, p, b);
      var q := p[|p| - 2];
      assert Reachable(g, q);
      AncHigher(t, t.idom[b], q);
      AncTransitive(t, x, t.idom[b], q);
      AncOnPath(g, t, x, q, p[..|p| - 1]);
    }
  }

  /** At the fixpoint the tree is exactly dominance. */
  lemma AncIffDom(g: Graph, t: Tree, x: Block, b: Block)
    requires g.Valid() && Numbered(g, t) && Fixpoint(g, t) && b in t.node
    ensures t.Anc(x, b) <==> Dom(g, x, b)
  {
    if Dom(g, x, b) {
      DomIsAnc(g, t, x, b);
    }
    if t.Anc(x, b) {
      forall p | PathTo(g, p, b)
        ensures x in p
      {
        AncOnPath(g, t, x, b, p);
      }
    }
  }

  /** At the fixpoint each link is the immediate dominator in the sense of paths. */
  lemma LinkIsIDom(g: Graph, t: Tree, b: Block)
    requires g.Valid() && Numbered(g, t) && Fixpoint(g, t) && b in t.node && b != t.entry
    ensures IDom(g, t.idom[b], b)
  {
    AncIffDom(g, t, t.idom[b], b);
    forall c | SDom(g, c, b)
      ensures Dom(g, c, t.idom[b])
    {
      AncIffDom(g, t, c, b);
      AncIffDom(g, t, c, t.idom[b]);
    }
  }

  // ---------- start, end and progress of the iteration ----------

  ghost predicate OnlyEntryProcessed(t: Tree) {
    forall b :: t.Processed(b) ==> b == t.entry
  }

  lemma SweepStarts(g: Graph, t: Tree)
    requires g.Valid() && Numbered(g, t) && OnlyEntryProcessed(t)
    ensures SweepInv(g, t, t.node[t.entry])
  {
  }

  /** Between two sweeps every block has had its turn, so a new sweep may start. */
  lemma SweepRestarts(g: Graph, t: Tree)
    requires g.Valid() && Numbered(g, t) && SweepInv(g, t, 1)
    ensures SweepInv(g, t, t.node[t.entry])
  {
  }

  /** A turn that finds the link already at the meet keeps the invariant. */
  lemma TurnUnchanged(g: Graph, t: Tree, k: int, b: Block, d: Block)
    requires TurnFor(g, t, k, b, d) && t.Processed(b) && d == t.idom[b]
    ensures SweepInv(g, t, k) && Settled(g, t, b)
  {
    TurnStep(g, t, k, b, d);
    MeetSettles(g, t, d, b);
    RelinkSame(t, b);
    hide *;
  }

  lemma MeetSettles(g: Graph, t: Tree, d: Block, b: Block)
    requires g.Valid() && Numbered(g, t) && b in t.node && Meet(g, t, d, b) && t.Processed(b) && d == t.idom[b]
    ensures Settled(g, t, b)
  {
    hide Numbered;
  }

  /** Writing the link a block already has. */
  lemma RelinkSame(t: Tree, b: Block)
    requires b in t.idom && t.Processed(b)
    ensures Relink(t, b, t.idom[b]) == t
  {
  }

  /** The blocks numbered from k up to the entry are settled. */
  ghost predicate SettledFrom(g: Graph, t: Tree, k: int)
    requires g.Valid() && Numbered(g, t)
  {
    forall c {:trigger Settled(g, t, c)} :: t.Processed(c) && c != t.entry && t.node[c] >= k ==> Settled(g, t, c)
  }

  lemma SweepEnds(g: Graph, t: Tree)
    requires g.Valid() && Numbered(g, t) && SweepInv(g, t, 1) && SettledFrom(g, t, 1)
    ensures Fixpoint(g, t)
  {
    forall c | c in t.node
      ensures t.Processed(c)
    {
    }
  }

  ghost function Rank(t: Tree, b: Block): int {
    if t.Processed(b) && b in t.idom && t.idom[b] in t.node then t.node[t.idom[b]] else 0
  }

  /** How far the links of the listed blocks can still rise. */
  ghost function Slack(t: Tree, bs: seq<Block>, top: int): int {
    if |bs| == 0 then 0 else (top - Rank(t, bs[|bs| - 1])) + Slack(t, bs[..|bs| - 1], top)
  }

  lemma {:induction false} SlackNonNegative(t: Tree, bs: seq<Block>, top: int)
    requires t.Valid() && top >= t.node[t.entry]
    ensures Slack(t, bs, top) >= 0
  {
    if |bs| > 0 {
      SlackNonNegative(t, bs[..|bs| - 1], top);
    }
  }

  lemma {:induction false} SlackDrops(t: Tree, bs: seq<Block>, top: int, b: Block, d: Block)
    requires t.Valid() && LegalRelink(t, b, d) && Relink(t, b, d).Valid()
    requires t.Processed(b) ==> t.node[d] > t.node[t.idom[b]]
    ensures Slack(Relink(t, b, d), bs, top) <= Slack(t, bs, top)
    ensures b in bs ==> Slack(Relink(t, b, d), bs, top) < Slack(t, bs, top)
  {
    if |bs| > 0 {
      var c := bs[|bs| - 1];
      SlackDrops(t, bs[..|bs| - 1], top, b, d);
      if c == b {
        assert Rank(Relink(t, b, d), c) == t.node[d] > Rank(t, c);
      } else {
        assert Rank(Relink(t, b, d), c) == Rank(t, c);
      }
    }
  }
}
