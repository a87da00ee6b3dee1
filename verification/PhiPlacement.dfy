/** Iterated dominance frontiers, and what the phi worklist keeps. */
module PhiPlacement {
  import opened Cfg
  import opened Frontier
  import opened Ir
  import opened Exec
  import opened Renaming
  import opened Promotion

  // ---------- iterated dominance frontiers ----------

  /** xs leads from a block of s to y, each block in the frontier of the one before. */
  ghost predicate FrontierChain(g: Graph, s: set<Block>, xs: seq<Block>, y: Block)
    requires g.Valid()
  {
    && |xs| >= 2 && xs[0] in s && xs[|xs| - 1] == y
    && forall i :: 0 <= i < |xs| - 1 ==> InFrontier(g, xs[i], xs[i + 1])
  }

  /** y is in the iterated dominance frontier of s. */
  ghost predicate InIDF(g: Graph, s: set<Block>, y: Block)
    requires g.Valid()
  {
    exists xs :: FrontierChain(g, s, xs, y)
  }

  lemma IDFStep(g: Graph, s: set<Block>, x: Block, y: Block)
    requires g.Valid() && (x in s || InIDF(g, s, x)) && InFrontier(g, x, y)
    ensures InIDF(g, s, y)
  {
    if x in s {
      assert FrontierChain(g, s, [x, y], y);
    } else {
      var xs :| FrontierChain(g, s, xs, x);
      var ys := xs + [y];
      forall i | 0 <= i < |ys| - 1
        ensures InFrontier(g, ys[i], ys[i + 1])
      {
        if i == |xs| - 1 {
          assert ys[i] == x;
        } else {
          assert ys[i] == xs[i] && ys[i + 1] == xs[i + 1];
        }
      }
      assert FrontierChain(g, s, ys, y);
    }
  }

  /** f contains, with every block of s or f, that block's frontier. */
  ghost predicate FrontierClosed(g: Graph, s: set<Block>, f: set<Block>)
    requires g.Valid()
  {
    forall x, y {:trigger InFrontier(g, x, y)} :: (x in s || x in f) && InFrontier(g, x, y) ==> y in f
  }

  /** The iterated frontier is the least closed set. */
  lemma {:induction false} IDFLeast(g: Graph, s: set<Block>, f: set<Block>, xs: seq<Block>, y: Block)
    requires g.Valid() && FrontierClosed(g, s, f) && FrontierChain(g, s, xs, y)
    ensures y in f
    decreases |xs|
  {
    var x := xs[|xs| - 2];
    assert xs[|xs| - 2 + 1] == y;
    if |xs| > 2 {
      var front := xs[..|xs| - 1];
      forall i | 0 <= i < |front| - 1
        ensures InFrontier(g, front[i], front[i + 1])
      {
        assert front[i] == xs[i] && front[i + 1] == xs[i + 1];
      }
      IDFLeast(g, s, f, front, x);
    }
  }

  // ---------- the worklist ----------

  ghost function SetOf<T>(xs: seq<T>): set<T> {
    set x | x in xs
  }

  ghost predicate Distinct<T>(xs: seq<T>) {
    forall i, j :: 0 <= i < j < |xs| ==> xs[i] != xs[j]
  }

  /** The frontier table as the dominator pass leaves it, for an entry without predecessors. */
  ghost predicate FrontierTable(g: Graph, frontier: map<Block, set<Block>>) {
    && g.Valid()
    && (forall x :: x in g.blocks ==> x in frontier)
    && (forall x, y :: x in g.blocks && y in frontier[x] ==> y in g.blocks)
    && (forall x, y {:trigger InFrontier(g, x, y)} ::
        x in g.blocks && Reachable(g, x) ==> (y in frontier[x] <==> InFrontier(g, x, y)))
    && (forall x, y :: x in g.blocks && !Reachable(g, x) && y in frontier[x] ==> !Reachable(g, y))
  }

  lemma TableAt(g: Graph, idom: map<Block, Block>, frontier: map<Block, set<Block>>, treeSucc: map<Block, set<Block>>,
          x: Block, y: Block)
    requires Tables(g, idom, frontier, treeSucc) && g.pre[g.Entry()] == [] && x in g.blocks && Reachable(g, x)
    ensures x in frontier && (y in frontier[x] <==> InFrontier(g, x, y))
  {
    hide Reachable;
    if y in g.blocks {
      RecordedIsFrontier(g, x, y);
    }
  }

  lemma TablesGiveFrontiers(g: Graph, idom: map<Block, Block>, frontier: map<Block, set<Block>>,
          treeSucc: map<Block, set<Block>>)
    requires Tables(g, idom, frontier, treeSucc) && g.pre[g.Entry()] == []
    ensures FrontierTable(g, frontier)
  {
    forall x, y | x in g.blocks && Reachable(g, x)
      ensures x in frontier && (y in frontier[x] <==> InFrontier(g, x, y))
    {
      TableAt(g, idom, frontier, treeSucc, x, y);
    }
    hide Reachable, InFrontier, InRecordedFrontier;
  }

  lemma FrontierEnds(g: Graph, x: Block, y: Block)
    requires g.Valid() && InFrontier(g, x, y)
    ensures Reachable(g, x) && Reachable(g, y) && x in g.blocks && y in g.blocks
  {
    var p :| p in g.pre[y] && Dom(g, x, p);
    DomReachable(g, x, p);
    PredInBlocks(g, y, p);
    SuccReachable(g, p, y);
  }

  /** f holds phis already placed, w blocks still to expand; pending are the
      frontier blocks of cur not looked at yet. */
  ghost predicate WorkInv(g: Graph, frontier: map<Block, set<Block>>, s: seq<Block>, f: seq<Block>, w: seq<Block>,
          cur: Block, pending: set<Block>)
    requires g.Valid()
  {
    && FrontierTable(g, frontier)
    && Distinct(f)
    && (forall x :: x in s ==> x in g.blocks)
    && (forall y :: y in f ==> y in g.blocks)
    && (forall y {:trigger InIDF(g, SetOf(s), y)} :: y in f && Reachable(g, y) ==> InIDF(g, SetOf(s), y))
    && (forall x :: x in w ==> x in s || x in f)
    && (forall x, y :: (x in s || x in f) && x !in w && y in frontier[x] && !(x == cur && y in pending) ==> y in f)
    && (pending != {} ==> cur in s || cur in f)
    && (cur in g.blocks ==> pending <= frontier[cur])
  }

  lemma WorkStarts(g: Graph, frontier: map<Block, set<Block>>, s: seq<Block>)
    requires FrontierTable(g, frontier) && forall x :: x in s ==> x in g.blocks
    ensures WorkInv(g, frontier, s, [], s, NULL, {})
  {
  }

  lemma WorkPops(g: Graph, frontier: map<Block, set<Block>>, s: seq<Block>, f: seq<Block>, w: seq<Block>, cur: Block)
    requires g.Valid() && WorkInv(g, frontier, s, f, w, cur, {}) && |w| > 0
    ensures w[|w| - 1] in g.blocks
    ensures WorkInv(g, frontier, s, f, w[..|w| - 1], w[|w| - 1], frontier[w[|w| - 1]])
  {
    var x := w[|w| - 1];
    assert w == w[..|w| - 1] + [x];
  }

  /** Whatever is taken from the frontier of a block being expanded belongs to the iterated frontier. */
  lemma WorkFinds(g: Graph, frontier: map<Block, set<Block>>, s: seq<Block>, f: seq<Block>, w: seq<Block>, cur: Block,
          pending: set<Block>, y: Block)
    requires g.Valid() && WorkInv(g, frontier, s, f, w, cur, pending) && y in pending
    ensures y in g.blocks && cur in g.blocks
    ensures Reachable(g, y) ==> InIDF(g, SetOf(s), y)
  {
    if Reachable(g, y) {
      assert Reachable(g, cur);
      assert InFrontier(g, cur, y);
      IDFStep(g, SetOf(s), cur, y);
    }
  }

  lemma WorkSeen(g: Graph, frontier: map<Block, set<Block>>, s: seq<Block>, f: seq<Block>, w: seq<Block>, cur: Block,
          pending: set<Block>, y: Block)
    requires g.Valid() && WorkInv(g, frontier, s, f, w, cur, pending) && y in pending && y in f
    ensures WorkInv(g, frontier, s, f, w, cur, pending - {y})
  {
  }

  lemma WorkAdds(g: Graph, frontier: map<Block, set<Block>>, s: seq<Block>, f: seq<Block>, w: seq<Block>, cur: Block,
          pending: set<Block>, y: Block, w': seq<Block>)
    requires g.Valid() && WorkInv(g, frontier, s, f, w, cur, pending) && y in pending && y !in f
    requires w' == if y in w then w else w + [y]
    ensures WorkInv(g, frontier, s, f + [y], w', cur, pending - {y})
  {
    WorkFinds(g, frontier, s, f, w, cur, pending, y);
    assert forall x :: x in f + [y] <==> x in f || x == y;
    assert forall x :: x in w' <==> x in w || x == y;
  }

  /** When the worklist is empty the phis sit exactly on the iterated frontier. */
  lemma WorkEnds(g: Graph, frontier: map<Block, set<Block>>, s: seq<Block>, f: seq<Block>, cur: Block)
    requires g.Valid() && WorkInv(g, frontier, s, f, [], cur, {})
    ensures forall y :: y in g.blocks && Reachable(g, y) ==> (y in f <==> InIDF(g, SetOf(s), y))
    ensures Distinct(f) && forall y :: y in f ==> y in g.blocks
    ensures forall y :: y in f && !Reachable(g, y) ==> !InIDF(g, SetOf(s), y)
  {
    var ss, ff := SetOf(s), SetOf(f);
    forall x, y | (x in ss || x in ff) && InFrontier(g, x, y)
      ensures y in ff
    {
      FrontierEnds(g, x, y);
      assert y in frontier[x];
    }
    forall y | InIDF(g, ss, y)
      ensures y in f && Reachable(g, y)
    {
      var xs :| FrontierChain(g, ss, xs, y);
      IDFLeast(g, ss, ff, xs, y);
      assert InFrontier(g, xs[|xs| - 2], xs[|xs| - 2 + 1]);
      FrontierEnds(g, xs[|xs| - 2], y);
    }
  }

  lemma DistinctBound<T>(xs: seq<T>, bs: set<T>)
    requires Distinct(xs) && forall x :: x in xs ==> x in bs
    ensures |xs| <= |bs|
  {
    if |xs| > 0 {
      var n := |xs| - 1;
      assert forall x :: x in xs[..n] ==> x in bs - {xs[n]};
      DistinctBound(xs[..n], bs - {xs[n]});
    }
  }

  // ---------- phis at the head of a block ----------

  function NewPhi(v: Value, b: Block): Instr {
    Instr(Phi(v, b), OpPhi, [])
  }

  /** heads are one empty phi for each variable of vars and one blank phi. */
  ghost predicate HeadsFor(b: Block, heads: seq<Instr>, vars: set<Value>) {
    && DistinctIds(heads)
    && (forall i :: 0 <= i < |heads| ==>
          heads[i].id.Phi? && heads[i] == NewPhi(heads[i].id.of, b)
              && (heads[i].id.of == Null || heads[i].id.of in vars))
    && (forall v :: v in vars || v == Null ==> HasHead(heads, Phi(v, b)))
  }

  ghost predicate HasHead(heads: seq<Instr>, id: Value) {
    exists i :: 0 <= i < |heads| && heads[i].id == id
  }

  /** list is the block's original code under the heads for vars. */
  ghost predicate HeadsOk(f: Function, b: Block, list: seq<Instr>, vars: set<Value>)
    requires b in f.code
  {
    list[PhiCount(list)..] == f.code[b] && HeadsFor(b, list[..PhiCount(list)], vars)
  }

  lemma HeadsStart(f: Function, b: Block)
    requires b in f.code && |f.code[b]| > 0 && !f.code[b][0].IsPhi()
    ensures HeadsOk(f, b, [NewPhi(Null, b)] + f.code[b], {})
  {
    var list := [NewPhi(Null, b)] + f.code[b];
    assert list[1..] == f.code[b];
    assert PhiCount(list) == 1;
    assert list[..1][0].id == Phi(Null, b);
    assert HasHead(list[..1], Phi(Null, b));
  }

  lemma HeadsForPush(b: Block, heads: seq<Instr>, vars: set<Value>, v: Value)
    requires HeadsFor(b, heads, vars) && v !in vars && v != Null
    ensures HeadsFor(b, [NewPhi(v, b)] + heads, vars + {v})
  {
    var heads' := [NewPhi(v, b)] + heads;
    forall u | u in vars + {v} || u == Null
      ensures HasHead(heads', Phi(u, b))
    {
      if u == v {
        assert heads'[0].id == Phi(u, b);
      } else {
        assert HasHead(heads, Phi(u, b));
        var i :| 0 <= i < |heads| && heads[i].id == Phi(u, b);
        assert heads'[i + 1].id == Phi(u, b);
      }
    }
  }

  lemma HeadsPush(f: Function, b: Block, list: seq<Instr>, vars: set<Value>, v: Value)
    requires b in f.code && HeadsOk(f, b, list, vars) && v !in vars && v != Null
    ensures HeadsOk(f, b, [NewPhi(v, b)] + list, vars + {v})
  {
    var list' := [NewPhi(v, b)] + list;
    var n := PhiCount(list);
    assert list'[1..] == list;
    assert PhiCount(list') == n + 1;
    assert list'[n + 1..] == list[n..];
    assert list'[..n + 1] == [NewPhi(v, b)] + list[..n];
    hide HeadsFor;
    HeadsForPush(b, list[..n], vars, v);
  }

  // ---------- collecting the stores ----------

  /** Block c is known to store v: it is one of bs, or it is t and the store is
      among its first j instructions. */
  ghost predicate SeenStore(f: Function, bs: seq<Block>, t: Block, j: int, c: Block, v: Value) {
    (c in bs && StoresTo(f, c, v)) || (c == t && t in f.code && 0 <= j <= |f.code[t]| && StoresBefore(f, t, j, v))
  }

  /** vals lists the variables seen, and m the blocks seen to store each, without repetition. */
  ghost predicate ScanInv(f: Function, bs: seq<Block>, t: Block, j: int, vals: seq<Value>, m: map<Value, seq<Block>>) {
    && Distinct(vals)
    && (forall v :: v in vals <==> v in m)
    && (forall v :: v in m ==> Distinct(m[v]) && m[v] != [])
    && (forall v, c :: v in m ==> (c in m[v] <==> SeenStore(f, bs, t, j, c, v)))
    && (forall v, c :: SeenStore(f, bs, t, j, c, v) ==> v in m)
  }

  lemma SeenNext(f: Function, bs: seq<Block>, t: Block, j: int, c: Block, v: Value)
    requires t in f.code && 0 <= j < |f.code[t]|
    ensures SeenStore(f, bs, t, j + 1, c, v) <==>
            SeenStore(f, bs, t, j, c, v) || (c == t && f.code[t][j].IsCellStore() && f.code[t][j].operands[1] == v)
  {
    if c == t && StoresBefore(f, t, j + 1, v) {
      var k :| 0 <= k < j + 1 && f.code[t][k].IsCellStore() && f.code[t][k].operands[1] == v;
      assert k == j || StoresBefore(f, t, j, v);
    }
    if c == t && StoresBefore(f, t, j, v) {
      var k :| 0 <= k < j && f.code[t][k].IsCellStore() && f.code[t][k].operands[1] == v;
      assert StoresBefore(f, t, j + 1, v);
    }
    if f.code[t][j].IsCellStore() && f.code[t][j].operands[1] == v {
      assert StoresBefore(f, t, j + 1, v);
    }
  }

  lemma ScanSkip(f: Function, bs: seq<Block>, t: Block, j: int, vals: seq<Value>, m: map<Value, seq<Block>>)
    requires t in f.code && 0 <= j < |f.code[t]| && !f.code[t][j].IsCellStore() && ScanInv(f, bs, t, j, vals, m)
    ensures ScanInv(f, bs, t, j + 1, vals, m)
  {
    var j' := j + 1;
    forall v, c
      ensures SeenStore(f, bs, t, j', c, v) <==> SeenStore(f, bs, t, j, c, v)
    {
      SeenNext(f, bs, t, j, c, v);
    }
  }

  function Recorded1(m: map<Value, seq<Block>>, v: Value, t: Block): map<Value, seq<Block>> {
    if v !in m then m[v := [t]] else if t in m[v] then m else m[v := m[v] + [t]]
  }

  lemma ScanStore(f: Function, bs: seq<Block>, t: Block, j: int, vals: seq<Value>, m: map<Value, seq<Block>>, v: Value)
    requires t in f.code && 0 <= j < |f.code[t]| && f.code[t][j].IsCellStore() && f.code[t][j].operands[1] == v
    requires ScanInv(f, bs, t, j, vals, m)
    ensures ScanInv(f, bs, t, j + 1, if v in m then vals else vals + [v], Recorded1(m, v, t))
  {
    var m', j' := Recorded1(m, v, t), j + 1;
    forall u, c
      ensures SeenStore(f, bs, t, j', c, u) <==> SeenStore(f, bs, t, j, c, u) || (c == t && u == v)
    {
      SeenNext(f, bs, t, j, c, u);
    }
    forall u, c | u in m'
      ensures c in m'[u] <==> SeenStore(f, bs, t, j', c, u)
    {
      if u == v && v in m && t !in m[v] {
        assert m'[u] == m[u] + [t];
      }
    }
  }

  lemma ScanBlockDone(f: Function, bs: seq<Block>, i: int, vals: seq<Value>, m: map<Value, seq<Block>>)
    requires 0 <= i < |bs| && bs[i] in f.code && ScanInv(f, bs[..i], bs[i], |f.code[bs[i]]|, vals, m)
    ensures ScanInv(f, bs[..i + 1], NULL, 0, vals, m)
  {
    var done, next, t := bs[..i], bs[..i + 1], bs[i];
    var n := |f.code[t]|;
    assert next == done + [t];
    forall v, c
      ensures SeenStore(f, next, NULL, 0, c, v) <==> SeenStore(f, done, t, n, c, v)
    {
    }
  }

  lemma ScanNextBlock(f: Function, bs: seq<Block>, t: Block, vals: seq<Value>, m: map<Value, seq<Block>>)
    requires ScanInv(f, bs, NULL, 0, vals, m)
    ensures ScanInv(f, bs, t, 0, vals, m)
  {
    forall v, c
      ensures SeenStore(f, bs, NULL, 0, c, v) <==> SeenStore(f, bs, t, 0, c, v)
    {
    }
  }
}
