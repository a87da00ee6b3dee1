/** The operand pairs of the phis: how often each predecessor has added one, and
    with which value. */
module PhiPairs {
  import opened Cfg
  import opened Ir
  import opened Exec
  import opened Renaming
  import opened Promotion
  import opened PhiPlacement
  import opened RenameState
  import opened RenameTree

  /** Read two by two, every second operand is a block. */
  predicate Paired(ops: seq<Value>)
    decreases |ops|
  {
    |ops| == 0 || (|ops| >= 2 && ops[1].Label? && Paired(ops[2..]))
  }

  /** The values paired with block q, in order. */
  function ValuesFor(ops: seq<Value>, q: Block): seq<Value>
    decreases |ops|
  {
    if |ops| < 2 then []
    else (if ops[1] == Label(q) then [ops[0]] else []) + ValuesFor(ops[2..], q)
  }

  lemma PairSplit(ops: seq<Value>, v: Value, b: Block)
    requires |ops| >= 2
    ensures (ops + [v, Label(b)])[2..] == ops[2..] + [v, Label(b)]
    ensures (ops + [v, Label(b)])[0] == ops[0] && (ops + [v, Label(b)])[1] == ops[1]
  {
  }

  lemma FirstPair(v: Value, b: Block, q: Block)
    ensures Paired([v, Label(b)]) && ValuesFor([v, Label(b)], q) == if q == b then [v] else []
  {
    assert [v, Label(b)][2..] == [];
  }

  lemma HeadPair(ops: seq<Value>, q: Block)
    requires |ops| >= 2
    ensures Paired(ops) <==> ops[1].Label? && Paired(ops[2..])
    ensures ValuesFor(ops, q) == (if ops[1] == Label(q) then [ops[0]] else []) + ValuesFor(ops[2..], q)
  {
  }

  lemma NoPair(q: Block)
    ensures ValuesFor([], q) == []
  {
  }

  lemma PairedLength(ops: seq<Value>)
    requires Paired(ops)
    ensures |ops| == 0 || |ops| >= 2
  {
  }

  lemma {:induction false} OnePairMore(ops: seq<Value>, v: Value, b: Block, q: Block)
    requires Paired(ops)
    ensures Paired(ops + [v, Label(b)])
    ensures ValuesFor(ops + [v, Label(b)], q) == ValuesFor(ops, q) + (if q == b then [v] else [])
    decreases |ops|
  {
    hide Paired, ValuesFor;
    PairedLength(ops);
    if |ops| == 0 {
      assert ops == [] && ops + [v, Label(b)] == [v, Label(b)];
      NoPair(q);
      FirstPair(v, b, q);
    } else {
      HeadPair(ops, q);
      HeadPair(ops + [v, Label(b)], q);
      PairSplit(ops, v, b);
      OnePairMore(ops[2..], v, b, q);
    }
  }

  function Times(x: Value, n: nat): (r: seq<Value>)
    ensures |r| == n && forall i :: 0 <= i < n ==> r[i] == x
  {
    seq(n, _ => x)
  }

  /** What block q has for a phi of v: its definition of v, or for a phi without a
      variable its own such phi. */
  ghost function Offer(p: Problem, v: Value, q: Block): Option<Value>
    requires p.Analysed() && q in p.f.g.blocks && Reachable(p.f.g, q)
  {
    if v == Null then Some(Phi(Null, q)) else Incoming(p, v, q)
  }

  /** What block q gives a phi of v over n edges: what it has, each time, and nothing if
      it has nothing or is never reached. */
  ghost function Given(p: Problem, v: Value, q: Block, n: nat): seq<Value>
    requires p.Analysed()
  {
    if q in p.f.g.blocks && Reachable(p.f.g, q) && Offer(p, v, q).Some? then Times(Offer(p, v, q).value, n)
    else []
  }

  /** The number of edges from q to c. */
  function Edges(g: Graph, q: Block, c: Block): nat {
    if q in g.succ then multiset(g.succ[q])[c] else 0
  }

  /** The phi of block c has one pair for every edge from a block with a definition. */
  ghost predicate PairPerEdge(p: Problem, c: Block, phi: Instr)
    requires p.Analysed()
  {
    phi.id.Phi? ==>
      && Paired(phi.operands)
      && forall q :: ValuesFor(phi.operands, q) == Given(p, phi.id.of, q, Edges(p.f.g, q, c))
  }

  /** In every reachable block, and each has a phi without a variable. */
  ghost predicate PairsExact(p: Problem, code: map<Block, seq<Instr>>)
    requires p.Analysed()
  {
    forall c :: c in p.f.g.blocks && Reachable(p.f.g, c) && c in code ==>
      && HasHead(PhisOf(code[c]), Phi(Null, c))
      && forall i :: 0 <= i < |PhisOf(code[c])| ==> PairPerEdge(p, c, PhisOf(code[c])[i])
  }

  // ---------- while the walk goes on ----------

  /** The edges to c that have been fed: all from the blocks done, from b those in ss. */
  function FedEdges(g: Graph, done: set<Block>, b: Block, ss: seq<Block>, c: Block, q: Block): nat {
    if q == b then multiset(ss)[c] else if q in done then Edges(g, q, c) else 0
  }

  ghost predicate FedOnce(p: Problem, done: set<Block>, b: Block, ss: seq<Block>, c: Block, phi: Instr)
    requires p.Analysed()
  {
    phi.id.Phi? ==>
      && Paired(phi.operands)
      && forall q :: ValuesFor(phi.operands, q) == Given(p, phi.id.of, q, FedEdges(p.f.g, done, b, ss, c, q))
  }

  ghost predicate HeadsFedOnce(p: Problem, done: set<Block>, b: Block, ss: seq<Block>, c: Block, heads: seq<Instr>)
    requires p.Analysed()
  {
    HasHead(heads, Phi(Null, c)) && forall i :: 0 <= i < |heads| ==> FedOnce(p, done, b, ss, c, heads[i])
  }

  /** The phis hold the pairs of the blocks done and of the edges ss of block b. */
  ghost predicate Counting(p: Problem, code: map<Block, seq<Instr>>, done: set<Block>, b: Block, ss: seq<Block>)
    requires p.Analysed()
  {
    forall c :: c in p.f.g.blocks && Reachable(p.f.g, c) && c in code ==>
      HeadsFedOnce(p, done, b, ss, c, PhisOf(code[c]))
  }

  /** The phis hold the pairs of the blocks done. */
  ghost predicate Counted(p: Problem, code: map<Block, seq<Instr>>, done: set<Block>)
    requires p.Analysed()
  {
    Counting(p, code, done, NULL, [])
  }

  lemma SameFed(p: Problem, done: set<Block>, b: Block, ss: seq<Block>, done': set<Block>, b': Block, ss': seq<Block>,
          c: Block, phi: Instr)
    requires p.Analysed() && FedOnce(p, done, b, ss, c, phi)
    requires forall q ::
        q in p.f.g.blocks ==> FedEdges(p.f.g, done, b, ss, c, q) == FedEdges(p.f.g, done', b', ss', c, q)
    ensures FedOnce(p, done', b', ss', c, phi)
  {
    hide Problem.Analysed, ValuesFor, Paired, FedEdges;
  }

  lemma SameCount(p: Problem, code: map<Block, seq<Instr>>, done: set<Block>, b: Block, ss: seq<Block>,
          done': set<Block>, b': Block, ss': seq<Block>)
    requires p.Analysed() && Counting(p, code, done, b, ss)
    requires forall c, q ::
        q in p.f.g.blocks ==> FedEdges(p.f.g, done, b, ss, c, q) == FedEdges(p.f.g, done', b', ss', c, q)
    ensures Counting(p, code, done', b', ss')
  {
    AnalysedGraph(p);
    hide Problem.Analysed, FedOnce, FedEdges, PhisOf;
    forall c | c in p.f.g.blocks && Reachable(p.f.g, c) && c in code
      ensures HeadsFedOnce(p, done', b', ss', c, PhisOf(code[c]))
    {
      assert HeadsFedOnce(p, done, b, ss, c, PhisOf(code[c]));
      forall i | 0 <= i < |PhisOf(code[c])| ensures FedOnce(p, done', b', ss', c, PhisOf(code[c])[i]) {
        SameFed(p, done, b, ss, done', b', ss', c, PhisOf(code[c])[i]);
      }
    }
  }

  /** Before anything is fed from b. */
  lemma CountStart(p: Problem, code: map<Block, seq<Instr>>, done: set<Block>, b: Block)
    requires p.Analysed() && Counted(p, code, done) && b !in done
    ensures forall ss: seq<Block> :: ss == [] ==> Counting(p, code, done, b, ss)
  {
    AnalysedGraph(p);
    hide Problem.Analysed, Counting;
    SameCount(p, code, done, NULL, [], done, b, []);
  }

  /** With all edges of b fed, b is done. */
  lemma CountEnd(p: Problem, code: map<Block, seq<Instr>>, done: set<Block>, b: Block)
    requires p.Analysed() && b in p.f.g.succ && Counting(p, code, done, b, p.f.g.succ[b])
    ensures Counted(p, code, done + {b})
  {
    AnalysedGraph(p);
    hide Problem.Analysed, Counting;
    SameCount(p, code, done, b, p.f.g.succ[b], done + {b}, NULL, []);
  }

  /** Code with the same phis. */
  lemma CountKept(p: Problem, code: map<Block, seq<Instr>>, code': map<Block, seq<Instr>>, done: set<Block>)
    requires p.Analysed() && Counted(p, code, done)
    requires forall c :: c in p.f.g.blocks && Reachable(p.f.g, c) && c in code' ==>
               c in code && PhisOf(code'[c]) == PhisOf(code[c])
    ensures Counted(p, code', done)
  {
    hide HeadsFedOnce, Problem.Analysed, PhisOf;
  }

  /** Replacing loads leaves the phis as they are. */
  lemma UsesKeepCount(p: Problem, b: Block, sub: map<Value, Value>, code0: map<Block, seq<Instr>>,
          code: map<Block, seq<Instr>>, done: set<Block>)
    requires p.Analysed() && CodeRenamed(p, b, sub, code0, code) && Counted(p, code0, done)
    ensures Counted(p, code, done)
  {
    AnalysedGraph(p);
    hide Problem.Analysed, Reachable, Counted, PhisOf, RestOf, Dom;
    forall c | c in p.f.g.blocks && Reachable(p.f.g, c) && c in code
      ensures c in code0 && PhisOf(code[c]) == PhisOf(code0[c])
    {
      assert BlockRenamed(p, b, sub, code0, code, c);
    }
    CountKept(p, code0, code, done);
  }

  /** So does deleting the loads and stores of a block. */
  lemma EraseKeepsCount(p: Problem, b: Block, code: map<Block, seq<Instr>>, list: seq<Instr>, done: set<Block>)
    requires p.Valid() && b in p.f.g.blocks && Reachable(p.f.g, b) && b in code && Counted(p, code, done)
    requires list == PhisOf(code[b]) + NewRest(p, b)
    ensures Counted(p, code[b := list], done)
  {
    hide Problem.Valid, Reachable, Counted, PhisOf, RestOf, NewRest;
    ProblemFacts(p, b);
    NewRestScoped(p, b);
    hide Problem.Analysed;
    PhisThenRest(code[b], NewRest(p, b));
    CountKept(p, code, code[b := list], done);
  }

  /** The blocks below one more child are done. */
  lemma ChildCounted(p: Problem, b: Block, code: map<Block, seq<Instr>>, done: set<Block>, seen: set<Block>, s: Block)
    requires p.Analysed() && Counted(p, code, done + {b} + BelowChildren(p.f.g, seen) + Subtree(p.f.g, s))
    ensures Counted(p, code, done + {b} + BelowChildren(p.f.g, seen + {s}))
  {
    AnalysedGraph(p);
    hide Problem.Analysed, Counted, BelowChildren, Subtree;
    BelowNext(p.f.g, seen, s);
    assert done + {b} + BelowChildren(p.f.g, seen + {s})
        == done + {b} + BelowChildren(p.f.g, seen) + Subtree(p.f.g, s);
  }

  lemma NoChildCounted(p: Problem, b: Block, code: map<Block, seq<Instr>>, done: set<Block>)
    requires p.Analysed() && Counted(p, code, done + {b})
    ensures Counted(p, code, done + {b} + BelowChildren(p.f.g, {}))
  {
    AnalysedGraph(p);
    hide Problem.Analysed, Counted;
    assert done + {b} + BelowChildren(p.f.g, {}) == done + {b};
  }

  lemma AllBelowCounted(p: Problem, b: Block, code: map<Block, seq<Instr>>, done: set<Block>, ren: set<Block>)
    requires p.Analysed() && {b} + ren == Subtree(p.f.g, b) && Counted(p, code, done + {b} + ren)
    ensures Counted(p, code, done + Subtree(p.f.g, b))
  {
    AnalysedGraph(p);
    hide Problem.Analysed, Counted, Subtree;
    assert done + {b} + ren == done + Subtree(p.f.g, b);
  }

  /** One phi fed over one more edge from b. */
  lemma FedOneMore(p: Problem, b: Block, done: set<Block>, ss: seq<Block>, s: Block, stack: map<Value, seq<Value>>,
          m: map<Value, Value>, phi: Instr)
    requires p.Valid() && b in p.f.g.blocks && Reachable(p.f.g, b) && StackIs(stack, End(p, b).env)
    requires phi.IsPhi() && phi.id.Phi? && PhiVal(m, phi.id) == phi.id.of
    requires FedOnce(p, done, b, ss, s, phi) && BlankOnTop(stack, b)
    ensures FedOnce(p, done, b, ss + [s], s, FeedPhi(stack, m, b, phi))
  {
    hide *;
    ProblemFacts(p, b);
    FeedPhiIs(stack, m, b, phi);
    var v := phi.id.of;
    TopIsOffer(p, b, stack, v);
    var st := StackOf(stack, v);
    FedOnceGives(p, done, b, ss, s, phi);
    var r := FeedPhi(stack, m, b, phi);
    forall q
      ensures ValuesFor(r.operands, q) == Given(p, v, q, FedEdges(p.f.g, done, b, ss + [s], s, q))
    {
      EdgeMore(p.f.g, done, b, ss, s, q);
      GivenMore(p, v, b, FedEdges(p.f.g, done, b, ss, s, b));
      if |st| > 0 { OnePairMore(phi.operands, st[|st| - 1], b, q); }
    }
    if |st| > 0 { OnePairMore(phi.operands, st[|st| - 1], b, b); }
    FedOnceIs(p, done, b, ss + [s], s, r);
  }

  /** The top of a stack at the end of b is what b has for its successors. */
  lemma TopIsOffer(p: Problem, b: Block, stack: map<Value, seq<Value>>, v: Value)
    requires p.Valid() && b in p.f.g.blocks && Reachable(p.f.g, b) && StackIs(stack, End(p, b).env)
    requires BlankOnTop(stack, b)
    ensures p.Analysed()
    ensures var s := StackOf(stack, v); Offer(p, v, b) == if |s| > 0 then Some(s[|s| - 1]) else None
  {
    hide Problem.Valid, Problem.Analysed, Reachable, StackIs, End, Incoming;
    ProblemFacts(p, b);
    TopIsIncoming(p, b, stack, v);
  }

  lemma FedOnceGives(p: Problem, done: set<Block>, b: Block, ss: seq<Block>, c: Block, phi: Instr)
    requires p.Analysed() && FedOnce(p, done, b, ss, c, phi) && phi.id.Phi?
    ensures Paired(phi.operands)
    ensures forall q :: ValuesFor(phi.operands, q) == Given(p, phi.id.of, q, FedEdges(p.f.g, done, b, ss, c, q))
  {
  }

  lemma FedOnceIs(p: Problem, done: set<Block>, b: Block, ss: seq<Block>, c: Block, phi: Instr)
    requires p.Analysed() && phi.id.Phi? && Paired(phi.operands)
    requires forall q :: ValuesFor(phi.operands, q) == Given(p, phi.id.of, q, FedEdges(p.f.g, done, b, ss, c, q))
    ensures FedOnce(p, done, b, ss, c, phi)
  {
  }

  lemma EdgeMore(g: Graph, done: set<Block>, b: Block, ss: seq<Block>, s: Block, q: Block)
    ensures FedEdges(g, done, b, ss + [s], s, q) == FedEdges(g, done, b, ss, s, q) + (if q == b then 1 else 0)
  {
  }

  lemma GivenMore(p: Problem, v: Value, b: Block, n: nat)
    requires p.Analysed() && b in p.f.g.blocks && Reachable(p.f.g, b)
    ensures Given(p, v, b, n + 1)
        == Given(p, v, b, n) + (if Offer(p, v, b).Some? then [Offer(p, v, b).value] else [])
  {
    hide Offer, Reachable, Problem.Analysed;
  }

  /** Feeding successor s over one more edge from b. */
  lemma CountNext(p: Problem, b: Block, done: set<Block>, ss: seq<Block>, s: Block, code0: map<Block, seq<Instr>>,
          code: map<Block, seq<Instr>>, stack: map<Value, seq<Value>>, m: map<Value, Value>)
    requires p.Valid() && b in p.f.g.blocks && Reachable(p.f.g, b) && s in p.f.g.succ[b]
    requires StackIs(stack, End(p, b).env) && PhisMapped(m, p.phiVars) && RestHasNoPhis(p, code0)
    requires FeedState(p, b, done, ss, code0, code) && Counting(p, code, done, b, ss) && s in code
    requires BlankOnTop(stack, b)
    ensures Counting(p, code[s := FeedList(stack, m, b, code[s])], done, b, ss + [s])
  {
    hide Problem.Valid, Problem.Analysed, FeedAt, StackIs, PhisMapped, RestHasNoPhis, Clear, Loads, HeadsFedOnce,
        FeedList, PhisOf, BlankOnTop;
    ProblemFacts(p, b);
    SuccReachable(p.f.g, b, s);
    var code' := code[s := FeedList(stack, m, b, code[s])];
    forall c | c in p.f.g.blocks && Reachable(p.f.g, c) && c in code'
      ensures HeadsFedOnce(p, done, b, ss + [s], c, PhisOf(code'[c]))
    {
      if c == s {
        FeedAtIn(p, b, done, ss, code0, code, s);
        CountHere(p, b, done, ss, s, code0, code, stack, m);
      } else {
        CountElsewhere(p, b, done, ss, s, c, PhisOf(code[c]));
      }
    }
  }

  lemma CountHere(p: Problem, b: Block, done: set<Block>, ss: seq<Block>, s: Block, code0: map<Block, seq<Instr>>,
          code: map<Block, seq<Instr>>, stack: map<Value, seq<Value>>, m: map<Value, Value>)
    requires p.Valid() && b in p.f.g.blocks && Reachable(p.f.g, b) && s in p.f.g.blocks && Reachable(p.f.g, s)
    requires StackIs(stack, End(p, b).env) && PhisMapped(m, p.phiVars) && RestHasNoPhis(p, code0)
    requires s in code && FeedAt(p, b, done, ss, code0, code, s) && HeadsFedOnce(p, done, b, ss, s, PhisOf(code[s]))
    requires BlankOnTop(stack, b)
    ensures HeadsFedOnce(p, done, b, ss + [s], s, PhisOf(FeedList(stack, m, b, code[s])))
  {
    hide Problem.Valid, StackIs, PhisMapped, RestHasNoPhis, HeadShape, Fed, Clean, Scoped, PhisOf, RestOf, Reachable,
        FedOnce, FeedPhi, PhiVal, BlankOnTop;
    ProblemFacts(p, b);
    var list := code[s];
    NoPhisPast(p, code0, s, list);
    FeedSplit(stack, m, b, list);
    var heads := PhisOf(list);
    hide Problem.Analysed;
    var k :| 0 <= k < |heads| && heads[k].id == Phi(Null, s);
    forall i | 0 <= i < |heads|
      ensures FedOnce(p, done, b, ss + [s], s, FeedPhi(stack, m, b, heads[i]))
      ensures FeedPhi(stack, m, b, heads[i]).id == heads[i].id
    {
      HeadMapped(p, s, heads, i, m);
      HeadIsPhi(p, s, heads, i);
      FeedPhiIs(stack, m, b, heads[i]);
      FedOneMore(p, b, done, ss, s, stack, m, heads[i]);
    }
    assert FeedList(stack, m, b, heads)[k].id == Phi(Null, s);
  }

  lemma CountElsewhere(p: Problem, b: Block, done: set<Block>, ss: seq<Block>, s: Block, c: Block, heads: seq<Instr>)
    requires p.Analysed() && HeadsFedOnce(p, done, b, ss, c, heads) && c != s
    ensures HeadsFedOnce(p, done, b, ss + [s], c, heads)
  {
    hide Problem.Analysed, Given, ValuesFor, Paired;
    assert multiset(ss + [s])[c] == multiset(ss)[c];
    forall i | 0 <= i < |heads| ensures FedOnce(p, done, b, ss + [s], c, heads[i]) {
      assert FedOnce(p, done, b, ss, c, heads[i]);
      forall q ensures FedEdges(p.f.g, done, b, ss + [s], c, q) == FedEdges(p.f.g, done, b, ss, c, q) {}
    }
  }

  // ---------- the phi without a variable ----------

  /** The stack of the null value ends in the blank phi of b. */
  ghost predicate BlankOnTop(stack: map<Value, seq<Value>>, b: Block) {
    var s := StackOf(stack, Null);
    |s| > 0 && s[|s| - 1] == Phi(Null, b)
  }

  ghost predicate BlankAt(code: map<Block, seq<Instr>>, b: Block) {
    b in code && HasHead(PhisOf(code[b]), Phi(Null, b))
  }

  /** So it does once the walk has passed that phi. */
  ghost predicate BlankPassed(heads: seq<Instr>, i: nat, b: Block, stack: map<Value, seq<Value>>) {
    HasHead(heads[..if i <= |heads| then i else |heads|], Phi(Null, b)) ==> BlankOnTop(stack, b)
  }

  lemma CountedBlank(p: Problem, code: map<Block, seq<Instr>>, done: set<Block>, b: Block)
    requires p.Analysed() && Counted(p, code, done) && b in p.f.g.blocks && Reachable(p.f.g, b) && b in code
    ensures BlankAt(code, b)
  {
    hide Problem.Analysed, PhisOf, FedOnce, HasHead;
  }

  lemma BlankStart(heads: seq<Instr>, b: Block, stack: map<Value, seq<Value>>)
    ensures BlankPassed(heads, 0, b, stack)
  {
  }

  /** Passing a phi pushes it on its variable's stack. */
  lemma BlankNextHead(heads: seq<Instr>, i: nat, b: Block, stack: map<Value, seq<Value>>)
    requires PhiIdsAt(b, heads) && i < |heads| && BlankPassed(heads, i, b, stack)
    ensures heads[i].id.Phi? && BlankPassed(heads, i + 1, b, Push(stack, heads[i].id.of, heads[i].id))
  {
    HasHeadNext(b, heads, i + 1, Null);
    hide HasHead;
    assert heads[i].id == Phi(heads[i].id.of, b);
  }

  /** Past the phis only variables' stacks grow. */
  lemma BlankNextStore(heads: seq<Instr>, i: nat, b: Block, stack: map<Value, seq<Value>>, v: Value, x: Value)
    requires i >= |heads| && BlankPassed(heads, i, b, stack) && v != Null
    ensures BlankPassed(heads, i + 1, b, Push(stack, v, x))
  {
  }

  lemma BlankNextOther(heads: seq<Instr>, i: nat, b: Block, stack: map<Value, seq<Value>>)
    requires i >= |heads| && BlankPassed(heads, i, b, stack)
    ensures BlankPassed(heads, i + 1, b, stack)
  {
  }

  lemma BlankEnd(heads: seq<Instr>, i: nat, b: Block, stack: map<Value, seq<Value>>)
    requires i >= |heads| && HasHead(heads, Phi(Null, b)) && BlankPassed(heads, i, b, stack)
    ensures BlankOnTop(stack, b)
  {
    assert heads[..|heads|] == heads;
  }

  // ---------- before and after the walk ----------

  /** Phis without operands, before the walk. */
  lemma NothingCounted(p: Problem, code: map<Block, seq<Instr>>)
    requires p.Analysed()
    requires forall c, i :: c in p.f.g.blocks && Reachable(p.f.g, c) && c in code && 0 <= i < |PhisOf(code[c])| ==>
               PhisOf(code[c])[i].operands == []
    requires forall c :: c in p.f.g.blocks && Reachable(p.f.g, c) && c in code ==>
               HasHead(PhisOf(code[c]), Phi(Null, c))
    ensures Counted(p, code, {})
  {
    hide Problem.Analysed, PhisOf, Reachable, Offer, HasHead;
  }

  /** When every reachable block is done, each phi has one pair per edge. */
  lemma CountedAll(p: Problem, code: map<Block, seq<Instr>>, done: set<Block>)
    requires p.Analysed() && Counted(p, code, done)
    requires forall q :: q in p.f.g.blocks && Reachable(p.f.g, q) ==> q in done
    ensures PairsExact(p, code)
  {
    AnalysedGraph(p);
    hide Problem.Analysed, PhisOf, Offer, ValuesFor, Paired, Edges, HasHead;
    forall c | c in p.f.g.blocks && Reachable(p.f.g, c) && c in code
      ensures HasHead(PhisOf(code[c]), Phi(Null, c))
      ensures forall i :: 0 <= i < |PhisOf(code[c])| ==> PairPerEdge(p, c, PhisOf(code[c])[i])
    {
      assert HeadsFedOnce(p, done, NULL, [], c, PhisOf(code[c]));
      forall i | 0 <= i < |PhisOf(code[c])| ensures PairPerEdge(p, c, PhisOf(code[c])[i]) {
        assert FedOnce(p, done, NULL, [], c, PhisOf(code[c])[i]);
      }
    }
  }

  // ---------- two predecessors, two pairs ----------

  lemma {:induction false} PairsOfTwo(ops: seq<Value>, q1: Block, q2: Block)
    requires Paired(ops) && q1 != q2
    requires forall q :: q != q1 && q != q2 ==> ValuesFor(ops, q) == []
    ensures |ops| == 2 * (|ValuesFor(ops, q1)| + |ValuesFor(ops, q2)|)
    decreases |ops|
  {
    if |ops| > 0 {
      var q := ops[1].block;
      assert ValuesFor(ops, q) != [];
      forall x | x != q1 && x != q2 ensures ValuesFor(ops[2..], x) == [] {
        assert ValuesFor(ops, x) == [];
      }
      PairsOfTwo(ops[2..], q1, q2);
    }
  }

  /** Where no block branches twice to the same block, a phi whose block has two
      reachable predecessors has at most two pairs. */
  lemma AtMostTwoPairs(p: Problem, code: map<Block, seq<Instr>>, c: Block, i: nat, q1: Block, q2: Block)
    requires p.Analysed() && PairsExact(p, code) && c in p.f.g.blocks && Reachable(p.f.g, c) && c in code
    requires i < |PhisOf(code[c])| && PhisOf(code[c])[i].id.Phi? && q1 != q2
    requires forall q :: q in p.f.g.blocks && Reachable(p.f.g, q) && Edges(p.f.g, q, c) > 0 ==> q == q1 || q == q2
    requires forall q :: Edges(p.f.g, q, c) <= 1
    ensures |PhisOf(code[c])[i].operands| <= 4
  {
    hide Problem.Analysed, PhisOf, Reachable, Offer, ValuesFor, Paired, Edges, HasHead;
    var phi := PhisOf(code[c])[i];
    assert PairPerEdge(p, c, phi);
    forall q ensures |ValuesFor(phi.operands, q)| <= 1 && (q != q1 && q != q2 ==> ValuesFor(phi.operands, q) == []) {
      assert ValuesFor(phi.operands, q) == Given(p, phi.id.of, q, Edges(p.f.g, q, c));
    }
    PairsOfTwo(phi.operands, q1, q2);
  }
}
