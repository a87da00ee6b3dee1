/** The later steps of the renaming walk as values: feeding the phis of the
    successors, visiting the dominator tree children, popping and deleting. */
module RenameTree {
  import opened Cfg
  import opened Ir
  import opened Exec
  import opened Renaming
  import opened Promotion
  import opened PhiPlacement
  import opened RenameState

  /** phi_to_val, read with a default: blank phis map to the null value. */
  function PhiVal(m: map<Value, Value>, k: Value): Value {
    if k in m then m[k] else Null
  }

  ghost predicate PhiMapOk(m: map<Value, Value>) {
    forall k :: k in m ==> k.Phi? && k.of != Null && m[k] == k.of
  }

  ghost predicate PhisMapped(m: map<Value, Value>, phiVars: map<Block, set<Value>>) {
    PhiMapOk(m) && forall b, v :: b in phiVars && v in phiVars[b] ==> Phi(v, b) in m
  }

  lemma HeadMapped(p: Problem, b: Block, heads: seq<Instr>, i: int, m: map<Value, Value>)
    requires p.Valid() && b in p.f.g.blocks && HeadShape(p, b, heads) && 0 <= i < |heads| && PhisMapped(m, p.phiVars)
    ensures heads[i].id.Phi? && PhiVal(m, heads[i].id) == heads[i].id.of
  {
    EdgeVars(p, b);
    assert heads[i].id == Phi(heads[i].id.of, b);
  }

  // ---------- feeding one block's phis from predecessor b ----------

  function FeedPhi(stack: map<Value, seq<Value>>, m: map<Value, Value>, b: Block, ins: Instr): Instr {
    if ins.IsPhi() && |StackOf(stack, PhiVal(m, ins.id))| > 0
    then
      var s := StackOf(stack, PhiVal(m, ins.id));
      ins.(operands := ins.operands + [s[|s| - 1], Label(b)])
    else ins
  }

  function FeedList(stack: map<Value, seq<Value>>, m: map<Value, Value>, b: Block, list: seq<Instr>): (r: seq<Instr>)
    ensures |r| == |list|
  {
    seq(|list|, i requires 0 <= i < |list| => FeedPhi(stack, m, b, list[i]))
  }

  lemma {:induction false} FeedSplit(stack: map<Value, seq<Value>>, m: map<Value, Value>, b: Block, list: seq<Instr>)
    requires forall i :: PhiCount(list) <= i < |list| ==> !list[i].IsPhi()
    ensures PhiCount(FeedList(stack, m, b, list)) == PhiCount(list)
    ensures PhisOf(FeedList(stack, m, b, list)) == FeedList(stack, m, b, PhisOf(list))
    ensures RestOf(FeedList(stack, m, b, list)) == RestOf(list)
  {
    var n, r := PhiCount(list), FeedList(stack, m, b, list);
    forall i | 0 <= i < |list|
      ensures r[i].IsPhi() <==> list[i].IsPhi()
    {
    }
    PhiCountIs(r, n);
  }

  lemma {:induction false} PhiCountIs(list: seq<Instr>, n: int)
    requires 0 <= n <= |list| && (forall i :: 0 <= i < n ==> list[i].IsPhi()) && (n < |list| ==> !list[n].IsPhi())
    ensures PhiCount(list) == n
  {
    if n > 0 {
      PhiCountIs(list[1..], n - 1);
    }
  }

  lemma {:induction false} PhiSourceAppend(ops: seq<Value>, v: Value, b: Block, q: Block)
    requires |ops| % 2 == 0
    ensures PhiSource(ops + [v, Label(b)], q) ==
            if PhiSource(ops, q).Some? then PhiSource(ops, q) else if q == b then Some(v) else None
  {
    if |ops| > 0 {
      assert (ops + [v, Label(b)])[2..] == ops[2..] + [v, Label(b)];
      PhiSourceAppend(ops[2..], v, b, q);
    } else {
      assert ops + [v, Label(b)] == [v, Label(b)];
    }
  }

  /** A fed phi has the pair for b that it should have, and keeps the others. */
  lemma FedPhi(p: Problem, b: Block, stack: map<Value, seq<Value>>, m: map<Value, Value>, phi: Instr)
    requires p.Valid() && b in p.f.g.blocks && Reachable(p.f.g, b) && StackIs(stack, End(p, b).env)
    requires phi.IsPhi() && phi.id.Phi? && |phi.operands| % 2 == 0 && PhiVal(m, phi.id) == phi.id.of
    ensures var r := FeedPhi(stack, m, b, phi);
            && r.IsPhi() && r.id == phi.id && |r.operands| % 2 == 0
            && (forall q :: q != b ==> PhiSource(r.operands, q) == PhiSource(phi.operands, q))
            && (phi.id.of != Null && (PhiSource(phi.operands, b) == None
                || PhiSource(phi.operands, b) == Incoming(p, phi.id.of, b)) ==>
                  PhiSource(r.operands, b) == Incoming(p, phi.id.of, b))
            && (forall o :: o in r.operands ==> o in phi.operands || !Promoted(p, o))
  {
    hide *;
    ProblemFacts(p, b);
    var v := phi.id.of;
    var s := StackOf(stack, v);
    TopIsIncoming(p, b, stack, v);
    FeedPhiIs(stack, m, b, phi);
    if |s| > 0 {
      var top := s[|s| - 1];
      forall q
        ensures PhiSource(phi.operands + [top, Label(b)], q) ==
                if PhiSource(phi.operands, q).Some? then PhiSource(phi.operands, q)
                    else if q == b then Some(top) else None
      {
        PhiSourceAppend(phi.operands, top, b, q);
      }
    }
  }

  lemma FeedPhiIs(stack: map<Value, seq<Value>>, m: map<Value, Value>, b: Block, phi: Instr)
    requires phi.IsPhi()
    ensures var s := StackOf(stack, PhiVal(m, phi.id)); var r := FeedPhi(stack, m, b, phi);
            && r.IsPhi() && r.id == phi.id
            && r.operands == if |s| > 0 then phi.operands + [s[|s| - 1], Label(b)] else phi.operands
  {
  }

  /** The top of a stack at the end of b is what b feeds to its successors. */
  lemma TopIsIncoming(p: Problem, b: Block, stack: map<Value, seq<Value>>, v: Value)
    requires p.Valid() && b in p.f.g.blocks && Reachable(p.f.g, b) && StackIs(stack, End(p, b).env)
    ensures var s := StackOf(stack, v);
            && !Promoted(p, Label(b))
            && (|s| > 0 ==> !Promoted(p, s[|s| - 1]))
            && (v != Null ==> Incoming(p, v, b) == if |s| > 0 then Some(s[|s| - 1]) else None)
  {
    var s := StackOf(stack, v);
    EndIsAt(p, b);
    var n := |p.f.code[b]|;
    NotPromoted(p, b, n, Label(b));
    if |s| > 0 {
      var top := s[|s| - 1];
      assert top in s;
      if v != Null {
        assert v in End(p, b).env && End(p, b).env[v] == top;
        StateOkAt(p, b, n);
      }
      hide StackIs, StateOk, Problem.Valid;
      NotPromoted(p, b, n, top);
    }
  }

  /** Same phis, in the same order, whatever their operands. */
  ghost predicate SameIds(h0: seq<Instr>, h1: seq<Instr>) {
    |h0| == |h1| && forall i :: 0 <= i < |h0| ==> h0[i].id == h1[i].id && (h0[i].IsPhi() <==> h1[i].IsPhi())
  }

  lemma FedHeads(p: Problem, b: Block, c: Block, stack: map<Value, seq<Value>>, m: map<Value, Value>, heads: seq<Instr>,
                 done: set<Block>, done': set<Block>)
    requires p.Valid() && b in p.f.g.blocks && Reachable(p.f.g, b) && c in p.f.g.blocks && b in p.f.g.pre[c]
    requires StackIs(stack, End(p, b).env) && PhisMapped(m, p.phiVars)
    requires HeadsInv(p, c, heads, done') && (done' == done || done' == done + {b}) && b !in done
    ensures HeadsInv(p, c, FeedList(stack, m, b, heads), done + {b})
    ensures SameIds(heads, FeedList(stack, m, b, heads))
  {
    var r := FeedList(stack, m, b, heads);
    forall i | 0 <= i < |heads|
      ensures r[i].IsPhi() && r[i].id == heads[i].id && |r[i].operands| % 2 == 0
      ensures forall o :: o in r[i].operands ==> o in heads[i].operands || !Promoted(p, o)
      ensures forall q :: q != b ==> PhiSource(r[i].operands, q) == PhiSource(heads[i].operands, q)
      ensures heads[i].id.of != Null ==> PhiSource(r[i].operands, b) == Incoming(p, heads[i].id.of, b)
    {
      HeadMapped(p, c, heads, i, m);
      if heads[i].id.of != Null {
        assert PhiSource(heads[i].operands, b) == if b in done' then Incoming(p, heads[i].id.of, b) else None;
      }
      hide HeadsInv, HeadShape, Fed, Clean, Problem.Valid, StackIs;
      FedPhi(p, b, stack, m, heads[i]);
    }
    FedHeadShape(p, c, heads, r);
    FedClean(p, heads, r);
    FedFed(p, b, c, heads, r, done, done');
    FedValues(p, b, c, stack, m, heads);
  }

  lemma FedValues(p: Problem, b: Block, c: Block, stack: map<Value, seq<Value>>, m: map<Value, Value>,
          heads: seq<Instr>)
    requires p.Valid() && b in p.f.g.blocks && Reachable(p.f.g, b) && c in p.f.g.blocks
    requires StackIs(stack, End(p, b).env) && PhisMapped(m, p.phiVars) && HeadShape(p, c, heads) && FedByValues(heads)
    ensures FedByValues(FeedList(stack, m, b, heads))
  {
    hide Problem.Valid, Problem.Analysed, Reachable, StackIs, PhisMapped, HeadShape, End, FeedPhi, PhiVal;
    ProblemFacts(p, b);
    var r := FeedList(stack, m, b, heads);
    forall i, o | 0 <= i < |r| && r[i].id.Phi? && r[i].id.of != Null && o in r[i].operands
      ensures !o.IsBlank()
    {
      HeadMapped(p, c, heads, i, m);
      HeadIsPhi(p, c, heads, i);
      FedNoBlank(p, b, stack, m, heads[i], o);
    }
  }

  lemma HeadIsPhi(p: Problem, c: Block, heads: seq<Instr>, i: int)
    requires p.Analysed() && c in p.f.g.blocks && HeadShape(p, c, heads) && 0 <= i < |heads|
    ensures heads[i].IsPhi()
  {
  }

  lemma FedNoBlank(p: Problem, b: Block, stack: map<Value, seq<Value>>, m: map<Value, Value>, phi: Instr, o: Value)
    requires p.Valid() && b in p.f.g.blocks && Reachable(p.f.g, b) && StackIs(stack, End(p, b).env)
    requires phi.IsPhi() && phi.id.Phi? && PhiVal(m, phi.id) == phi.id.of
    requires o in FeedPhi(stack, m, b, phi).operands
    ensures FeedPhi(stack, m, b, phi).id == phi.id
    ensures phi.id.of != Null ==> o in phi.operands || !o.IsBlank()
  {
    hide *;
    ProblemFacts(p, b);
    var v := phi.id.of;
    var s := StackOf(stack, v);
    FeedPhiIs(stack, m, b, phi);
    if |s| > 0 && v != Null { TopNotBlank(p, b, stack, v); }
    LabelNotBlank(b);
  }

  lemma LabelNotBlank(b: Block)
    ensures !Label(b).IsBlank()
  {
  }

  lemma TopNotBlank(p: Problem, b: Block, stack: map<Value, seq<Value>>, v: Value)
    requires p.Valid() && b in p.f.g.blocks && Reachable(p.f.g, b) && StackIs(stack, End(p, b).env) && v != Null
    requires |StackOf(stack, v)| > 0
    ensures !StackOf(stack, v)[|StackOf(stack, v)| - 1].IsBlank()
  {
    hide Problem.Valid, Problem.Analysed, Reachable, End;
    ProblemFacts(p, b);
    EndIsAt(p, b);
    NoBlankAt(p, b, |p.f.code[b]|);
    assert v in End(p, b).env;
  }

  lemma FedHeadShape(p: Problem, c: Block, heads: seq<Instr>, r: seq<Instr>)
    requires p.Analysed() && c in p.f.g.blocks && HeadShape(p, c, heads) && |r| == |heads|
    requires forall i :: 0 <= i < |heads| ==> r[i].IsPhi() && r[i].id == heads[i].id && |r[i].operands| % 2 == 0
    ensures HeadShape(p, c, r) && SameIds(heads, r)
  {
    forall v | v in p.phiVars[c]
      ensures HasHead(r, Phi(v, c))
    {
      assert HasHead(heads, Phi(v, c));
      var i :| 0 <= i < |heads| && heads[i].id == Phi(v, c);
      assert r[i].id == Phi(v, c);
    }
  }

  lemma FedClean(p: Problem, heads: seq<Instr>, r: seq<Instr>)
    requires p.Analysed() && Clean(p, heads) && |r| == |heads|
    requires forall i, o :: 0 <= i < |heads| && o in r[i].operands ==> o in heads[i].operands || !Promoted(p, o)
    ensures Clean(p, r)
  {
    forall ins, o | ins in r && o in ins.operands
      ensures !Promoted(p, o)
    {
      var i :| 0 <= i < |r| && r[i] == ins;
      assert heads[i] in heads;
    }
  }

  lemma FedFed(p: Problem, b: Block, c: Block, heads: seq<Instr>, r: seq<Instr>, done: set<Block>, done': set<Block>)
    requires p.Analysed() && c in p.f.g.blocks && b in p.f.g.blocks && Reachable(p.f.g, b) && Fed(p, c, heads, done')
    requires |r| == |heads| && (done' == done || done' == done + {b})
    requires forall i :: 0 <= i < |heads| ==> r[i].id == heads[i].id && heads[i].id.Phi?
    requires forall i, q ::
        0 <= i < |heads| && q != b ==> PhiSource(r[i].operands, q) == PhiSource(heads[i].operands, q)
    requires forall i ::
        0 <= i < |heads| && heads[i].id.of != Null ==> PhiSource(r[i].operands, b) == Incoming(p, heads[i].id.of, b)
    ensures Fed(p, c, r, done + {b})
  {
    forall i, q | 0 <= i < |r| && r[i].id.Phi? && r[i].id.of != Null && q in p.f.g.pre[c] && q in p.f.g.blocks
        && Reachable(p.f.g, q)
      ensures PhiSource(r[i].operands, q) == if q in done + {b} then Incoming(p, r[i].id.of, q) else None
    {
      if q != b {
        assert PhiSource(r[i].operands, q) == PhiSource(heads[i].operands, q);
      }
    }
  }

  /** The whole code while b's successors are fed; those in ss are done. */
  ghost predicate FeedState(p: Problem, b: Block, done: set<Block>, ss: seq<Block>, code0: map<Block, seq<Instr>>,
          code: map<Block, seq<Instr>>)
    requires p.Analysed()
  {
    && code.Keys == code0.Keys
    && Clear(code, Loads(p, done + {b}))
    && forall c {:trigger FeedAt(p, b, done, ss, code0, code, c)} ::
         c in p.f.g.blocks && Reachable(p.f.g, c) ==> FeedAt(p, b, done, ss, code0, code, c)
  }

  ghost predicate FeedAt(p: Problem, b: Block, done: set<Block>, ss: seq<Block>, code0: map<Block, seq<Instr>>,
          code: map<Block, seq<Instr>>, c: Block)
    requires p.Analysed() && c in p.f.g.blocks
  {
    && c in code && c in code0
    && BlockInv(p, c, code[c], if c in ss then done + {b} else done)
    && RestOf(code[c]) == RestOf(code0[c]) && SameIds(PhisOf(code0[c]), PhisOf(code[c]))
  }

  ghost predicate RestHasNoPhis(p: Problem, code: map<Block, seq<Instr>>)
    requires p.Analysed()
  {
    forall c, i :: c in p.f.g.blocks && Reachable(p.f.g, c) && c in code && 0 <= i < |RestOf(code[c])| ==>
        !RestOf(code[c])[i].IsPhi()
  }

  lemma FeedStarts(p: Problem, b: Block, done: set<Block>, code: map<Block, seq<Instr>>)
    requires p.Analysed() && CodeInv(p, code, done) && Clear(code, Loads(p, done + {b}))
    ensures forall ss: seq<Block> :: ss == [] ==> FeedState(p, b, done, ss, code, code)
  {
    hide Clear, Loads;
  }

  /** A fed list uses nothing that is gone, and its phis with a variable no blank phi. */
  lemma FedListClear(p: Problem, b: Block, c: Block, stack: map<Value, seq<Value>>, m: map<Value, Value>,
          list: seq<Instr>, done: set<Block>)
    requires p.Valid() && b in p.f.g.blocks && Reachable(p.f.g, b) && c in p.f.g.blocks
    requires StackIs(stack, End(p, b).env) && PhisMapped(m, p.phiVars) && HeadShape(p, c, PhisOf(list))
    requires forall i :: PhiCount(list) <= i < |list| ==> !list[i].IsPhi()
    requires ClearList(list, Loads(p, done))
    ensures ClearList(FeedList(stack, m, b, list), Loads(p, done))
  {
    hide Problem.Valid, Problem.Analysed, Reachable, StackIs, PhisMapped, HeadShape, End, FeedPhi, ClearInstr, Loads;
    ProblemFacts(p, b);
    forall i | 0 <= i < |list| ensures ClearInstr(FeedPhi(stack, m, b, list[i]), Loads(p, done)) {
      if list[i].IsPhi() {
        assert list[i] == PhisOf(list)[i];
        HeadMapped(p, c, PhisOf(list), i, m);
        FedPhiClear(p, b, stack, m, list[i], done);
      } else {
        NotFed(stack, m, b, list[i]);
      }
    }
  }

  lemma NotFed(stack: map<Value, seq<Value>>, m: map<Value, Value>, b: Block, ins: Instr)
    requires !ins.IsPhi()
    ensures FeedPhi(stack, m, b, ins) == ins
  {
  }

  lemma FedPhiClear(p: Problem, b: Block, stack: map<Value, seq<Value>>, m: map<Value, Value>, phi: Instr,
          done: set<Block>)
    requires p.Valid() && b in p.f.g.blocks && Reachable(p.f.g, b) && StackIs(stack, End(p, b).env)
    requires phi.IsPhi() && phi.id.Phi? && PhiVal(m, phi.id) == phi.id.of && ClearInstr(phi, Loads(p, done))
    ensures ClearInstr(FeedPhi(stack, m, b, phi), Loads(p, done))
  {
    hide Problem.Valid, Problem.Analysed, Reachable, StackIs, PhiVal, End, FeedPhi, Loads, Promoted;
    ProblemFacts(p, b);
    var v := phi.id.of;
    var s := StackOf(stack, v);
    FeedPhiIs(stack, m, b, phi);
    TopIsIncoming(p, b, stack, v);
    if |s| > 0 {
      if v != Null { TopNotBlank(p, b, stack, v); }
      var top := s[|s| - 1];
      if top in Loads(p, done) { LoadKnown(p, done, top); }
      if Label(b) in Loads(p, done) { LoadKnown(p, done, Label(b)); }
    }
  }

  lemma LoadKnown(p: Problem, done: set<Block>, x: Value)
    requires p.Analysed() && x in Loads(p, done)
    ensures Promoted(p, x)
  {
    hide Reachable;
    var c, j :| c in done && c in p.f.g.blocks && Reachable(p.f.g, c) && 0 <= j < |p.f.code[c]|
        && p.f.code[c][j].IsCellLoad() && p.f.code[c][j].id == x;
    assert DefinedAt(p.f, x, c, j);
  }

  lemma RestClean(p: Problem, code: map<Block, seq<Instr>>, s: Block)
    requires p.Analysed() && s in p.f.g.blocks && Reachable(p.f.g, s) && s in code && RestHasNoPhis(p, code)
    ensures forall i :: 0 <= i < |RestOf(code[s])| ==> !RestOf(code[s])[i].IsPhi()
  {
    hide RestOf, Reachable, Problem.Analysed;
  }

  lemma RestIs(list: seq<Instr>)
    ensures 0 <= PhiCount(list) <= |list| && RestOf(list) == list[PhiCount(list)..]
  {
  }

  lemma NoPhisPast(p: Problem, code0: map<Block, seq<Instr>>, s: Block, list: seq<Instr>)
    requires p.Analysed() && s in p.f.g.blocks && Reachable(p.f.g, s) && RestHasNoPhis(p, code0) && s in code0
        && RestOf(list) == RestOf(code0[s])
    ensures forall i :: PhiCount(list) <= i < |list| ==> !list[i].IsPhi()
  {
    hide *;
    RestClean(p, code0, s);
    var rest := RestOf(list);
    RestIs(list);
    forall i | PhiCount(list) <= i < |list|
      ensures !list[i].IsPhi()
    {
      assert rest[i - PhiCount(list)] == list[i];
    }
  }

  lemma FeedClear(p: Problem, b: Block, done: set<Block>, ss: seq<Block>, s: Block, code0: map<Block, seq<Instr>>,
          code: map<Block, seq<Instr>>,
                  stack: map<Value, seq<Value>>, m: map<Value, Value>)
    requires p.Valid() && b in p.f.g.blocks && Reachable(p.f.g, b) && s in p.f.g.blocks && Reachable(p.f.g, s)
    requires StackIs(stack, End(p, b).env) && PhisMapped(m, p.phiVars) && RestHasNoPhis(p, code0)
    requires s in code && FeedAt(p, b, done, ss, code0, code, s) && Clear(code, Loads(p, done + {b}))
    ensures Clear(code[s := FeedList(stack, m, b, code[s])], Loads(p, done + {b}))
  {
    hide Problem.Valid, Reachable, StackIs, PhisMapped, HeadShape, End, FeedPhi, ClearInstr, Loads, Fed, Scoped;
    ProblemFacts(p, b);
    var list := code[s];
    NoPhisPast(p, code0, s, list);
    FedListClear(p, b, s, stack, m, list, done + {b});
  }

  lemma FeedNext(p: Problem, b: Block, done: set<Block>, ss: seq<Block>, s: Block, code0: map<Block, seq<Instr>>,
          code: map<Block, seq<Instr>>,
                 stack: map<Value, seq<Value>>, m: map<Value, Value>)
    requires p.Valid() && b in p.f.g.blocks && Reachable(p.f.g, b) && s in p.f.g.succ[b] && b !in done
    requires StackIs(stack, End(p, b).env) && PhisMapped(m, p.phiVars) && RestHasNoPhis(p, code0)
    requires FeedState(p, b, done, ss, code0, code)
    ensures s in code && FeedState(p, b, done, ss + [s], code0, code[s := FeedList(stack, m, b, code[s])])
  {
    hide Problem.Valid, Problem.Analysed, FeedAt, StackIs, PhisMapped, RestHasNoPhis, Clear, Loads;
    ProblemFacts(p, b);
    SuccReachable(p.f.g, b, s);
    FeedAtIn(p, b, done, ss, code0, code, s);
    FeedClear(p, b, done, ss, s, code0, code, stack, m);
    var code' := code[s := FeedList(stack, m, b, code[s])];
    forall c | c in p.f.g.blocks && Reachable(p.f.g, c)
      ensures FeedAt(p, b, done, ss + [s], code0, code', c)
    {
      FeedAtIn(p, b, done, ss, code0, code, c);
      if c == s {
        FeedAtNext(p, b, done, ss, s, code0, code, stack, m);
      } else {
        FeedAtOther(p, b, done, ss, s, code0, code, code', c);
      }
    }
  }

  lemma FeedAtIn(p: Problem, b: Block, done: set<Block>, ss: seq<Block>, code0: map<Block, seq<Instr>>,
          code: map<Block, seq<Instr>>, c: Block)
    requires p.Analysed() && c in p.f.g.blocks && Reachable(p.f.g, c) && FeedState(p, b, done, ss, code0, code)
    ensures c in code && FeedAt(p, b, done, ss, code0, code, c)
  {
    assert FeedAt(p, b, done, ss, code0, code, c);
  }

  lemma FeedAtOther(p: Problem, b: Block, done: set<Block>, ss: seq<Block>, s: Block, code0: map<Block, seq<Instr>>,
                    code: map<Block, seq<Instr>>, code': map<Block, seq<Instr>>, c: Block)
    requires p.Analysed() && c in p.f.g.blocks && FeedAt(p, b, done, ss, code0, code, c)
    requires c != s && c in code' && code'[c] == code[c]
    ensures FeedAt(p, b, done, ss + [s], code0, code', c)
  {
    assert c in ss + [s] <==> c in ss;
  }

  lemma FeedAtNext(p: Problem, b: Block, done: set<Block>, ss: seq<Block>, s: Block, code0: map<Block, seq<Instr>>,
          code: map<Block, seq<Instr>>,
                   stack: map<Value, seq<Value>>, m: map<Value, Value>)
    requires p.Valid() && b in p.f.g.blocks && Reachable(p.f.g, b) && s in p.f.g.succ[b] && b !in done
    requires s in p.f.g.blocks && Reachable(p.f.g, s) && RestHasNoPhis(p, code0)
    requires StackIs(stack, End(p, b).env) && PhisMapped(m, p.phiVars)
    requires FeedAt(p, b, done, ss, code0, code, s)
    ensures FeedAt(p, b, done, ss + [s], code0, code[s := FeedList(stack, m, b, code[s])], s)
  {
    hide Problem.Valid, HeadsInv, Scoped, StackIs, PhisMapped, RestHasNoPhis, PhisOf, RestOf, Reachable;
    ProblemFacts(p, b);
    var list := code[s];
    NoPhisPast(p, code0, s, list);
    FeedSplit(stack, m, b, list);
    assert b in p.f.g.pre[s];
    hide Problem.Analysed;
    FedHeads(p, b, s, stack, m, PhisOf(list), done, if s in ss then done + {b} else done);
    assert s in ss + [s];
  }

  /** Once all successors are fed, b counts as done everywhere. */
  lemma FeedEnds(p: Problem, b: Block, done: set<Block>, code0: map<Block, seq<Instr>>, code: map<Block, seq<Instr>>)
    requires p.Analysed() && b in p.f.g.blocks && FeedState(p, b, done, p.f.g.succ[b], code0, code)
    ensures CodeInv(p, code, done + {b}) && Clear(code, Loads(p, done + {b}))
    ensures RestsKept(p, code0, code) && HeadsKept(p, code0, code)
  {
    hide Clear, Loads;
    forall c | c in p.f.g.blocks && Reachable(p.f.g, c)
      ensures c in code && BlockInv(p, c, code[c], done + {b})
      ensures c in code0 && RestOf(code[c]) == RestOf(code0[c]) && SameIds(PhisOf(code0[c]), PhisOf(code[c]))
    {
      assert FeedAt(p, b, done, p.f.g.succ[b], code0, code, c);
      if c !in p.f.g.succ[b] {
        assert b !in p.f.g.pre[c];
        FedElsewhere(p, b, c, PhisOf(code[c]), done);
      }
    }
  }

  lemma FedElsewhere(p: Problem, b: Block, c: Block, heads: seq<Instr>, done: set<Block>)
    requires p.Analysed() && c in p.f.g.blocks && b !in p.f.g.pre[c] && Fed(p, c, heads, done)
    ensures Fed(p, c, heads, done + {b})
  {
  }

  ghost predicate RestsKept(p: Problem, code0: map<Block, seq<Instr>>, code: map<Block, seq<Instr>>)
    requires p.Analysed()
  {
    forall c :: c in p.f.g.blocks && Reachable(p.f.g, c) ==>
        c in code0 && c in code && RestOf(code[c]) == RestOf(code0[c])
  }

  ghost predicate HeadsKept(p: Problem, code0: map<Block, seq<Instr>>, code: map<Block, seq<Instr>>)
    requires p.Analysed()
  {
    forall c :: c in p.f.g.blocks && Reachable(p.f.g, c) ==>
        c in code0 && c in code && SameIds(PhisOf(code0[c]), PhisOf(code[c]))
  }

  // ---------- the subtree of a block ----------

  ghost function Subtree(g: Graph, b: Block): set<Block>
    requires g.Valid()
  {
    set c | c in g.blocks && Dom(g, b, c)
  }

  /** treeSucc lists the dominator tree children of every reachable block. */
  ghost predicate TreeOk(p: Problem, treeSucc: map<Block, set<Block>>)
    requires p.Analysed()
  {
    && (forall x :: x in p.f.g.blocks && Reachable(p.f.g, x) ==> x in treeSucc)
    && (forall x, c :: x in p.f.g.blocks && Reachable(p.f.g, x) ==>
          (c in treeSucc[x] <==> c in p.f.g.blocks && Reachable(p.f.g, c) && c != p.f.g.Entry() && p.idom[c] == x))
  }

  /** Different children have disjoint subtrees, and none holds the parent. */
  lemma SiblingsDisjoint(p: Problem, b: Block, s: Block, t: Block, c: Block)
    requires p.Analysed() && b in p.f.g.blocks && s in p.f.g.blocks && t in p.f.g.blocks && s != t
    requires Reachable(p.f.g, s) && Reachable(p.f.g, t) && s != p.f.g.Entry() && t != p.f.g.Entry()
    requires p.idom[s] == b && p.idom[t] == b && Dom(p.f.g, s, c)
    ensures !Dom(p.f.g, t, c)
  {
    if Dom(p.f.g, t, c) {
      DomComparable(p.f.g, s, t, c);
      if Dom(p.f.g, s, t) {
        DomAntisymmetric(p.f.g, s, b);
      } else {
        DomAntisymmetric(p.f.g, t, b);
      }
    }
  }

  lemma ChildNotAboveParent(p: Problem, b: Block, s: Block)
    requires p.Analysed() && b in p.f.g.blocks && s in p.f.g.blocks && Reachable(p.f.g, s) && s != p.f.g.Entry()
        && p.idom[s] == b
    ensures !Dom(p.f.g, s, b) && Depth(p.f.g, b) < Depth(p.f.g, s)
  {
    DepthGrows(p.f.g, b, s);
    if Dom(p.f.g, s, b) {
      DomAntisymmetric(p.f.g, s, b);
    }
  }

  /** Every block strictly below b is below one of b's children. */
  lemma {:induction false} BelowSomeChild(p: Problem, b: Block, c: Block) returns (s: Block)
    requires p.Analysed() && b in p.f.g.blocks && c in p.f.g.blocks && SDom(p.f.g, b, c)
    ensures s in p.f.g.blocks && Reachable(p.f.g, s) && s != p.f.g.Entry() && p.idom[s] == b && Dom(p.f.g, s, c)
    decreases Depth(p.f.g, c)
  {
    DomReachable(p.f.g, b, c);
    if c == p.f.g.Entry() {
      OnlyEntryDominatesEntry(p.f.g, b);
    }
    StartFromIdom(p, c);
    var d := p.idom[c];
    if d == b {
      s := c;
      DomReflexive(p.f.g, c);
    } else {
      s := BelowSomeChild(p, b, d);
      DomTransitive(p.f.g, s, d, c);
    }
  }

  // ---------- visiting the children ----------

  /** Block c while b's children are visited: ren are the blocks renamed so far. */
  ghost predicate ChildAt(p: Problem, b: Block, ren: set<Block>, code0: map<Block, seq<Instr>>,
          code: map<Block, seq<Instr>>, c: Block)
    requires p.Analysed() && b in p.f.g.blocks && Reachable(p.f.g, b) && c in p.f.g.blocks && Reachable(p.f.g, c)
  {
    && c in code0 && c in code
    && RestOf(code[c]) == (if c in ren then NewRest(p, c)
                           else if Dom(p.f.g, b, c) then SubList(End(p, b).sub, p.f.code[c])
                           else RestOf(code0[c]))
    && SameIds(PhisOf(code0[c]), PhisOf(code[c]))
  }

  ghost predicate ChildState(p: Problem, b: Block, done: set<Block>, ren: set<Block>, code0: map<Block, seq<Instr>>,
          code: map<Block, seq<Instr>>)
    requires p.Analysed() && b in p.f.g.blocks && Reachable(p.f.g, b)
  {
    && code.Keys == code0.Keys
    && CodeInv(p, code, done + {b} + ren)
    && Clear(code, Loads(p, done + {b} + ren))
    && forall c {:trigger ChildAt(p, b, ren, code0, code, c)} ::
         c in p.f.g.blocks && Reachable(p.f.g, c) ==> ChildAt(p, b, ren, code0, code, c)
  }

  /** What a call of Rename(s) does to the code. */
  ghost predicate RenamedAt(p: Problem, s: Block, code0: map<Block, seq<Instr>>, code: map<Block, seq<Instr>>, c: Block)
    requires p.Analysed() && c in p.f.g.blocks && Reachable(p.f.g, c)
  {
    && c in code0 && c in code
    && RestOf(code[c]) == (if Dom(p.f.g, s, c) then NewRest(p, c) else RestOf(code0[c]))
    && SameIds(PhisOf(code0[c]), PhisOf(code[c]))
  }

  ghost predicate Renamed(p: Problem, s: Block, done: set<Block>, code0: map<Block, seq<Instr>>,
          code: map<Block, seq<Instr>>)
    requires p.Analysed()
  {
    && code.Keys == code0.Keys
    && CodeInv(p, code, done + Subtree(p.f.g, s))
    && Clear(code, Loads(p, done + Subtree(p.f.g, s)))
    && forall c {:trigger RenamedAt(p, s, code0, code, c)} ::
         c in p.f.g.blocks && Reachable(p.f.g, c) ==> RenamedAt(p, s, code0, code, c)
  }

  /** What a call of Rename(s) needs of the code. */
  ghost predicate ReadyFor(p: Problem, s: Block, done: set<Block>, code: map<Block, seq<Instr>>)
    requires p.Analysed() && s in p.f.g.blocks && Reachable(p.f.g, s)
  {
    && CodeInv(p, code, done)
    && Clear(code, Loads(p, done))
    && SubtreeIs(p, code, s, Start(p, s).sub)
    && RestHasNoPhis(p, code)
    && forall c :: c in p.f.g.blocks && Dom(p.f.g, s, c) ==> c !in done
  }

  /** The blocks below the children in seen. */
  ghost function BelowChildren(g: Graph, seen: set<Block>): set<Block>
    requires g.Valid()
  {
    set c | c in g.blocks && exists s :: s in seen && Dom(g, s, c)
  }

  lemma BelowNext(g: Graph, seen: set<Block>, s: Block)
    requires g.Valid()
    ensures BelowChildren(g, seen + {s}) == BelowChildren(g, seen) + Subtree(g, s)
  {
    forall c
      ensures c in BelowChildren(g, seen + {s}) <==> c in BelowChildren(g, seen) + Subtree(g, s)
    {
      if c in BelowChildren(g, seen) {
        var t :| t in seen && Dom(g, t, c);
        assert t in seen + {s};
      }
      if c in Subtree(g, s) {
        assert s in seen + {s};
      }
    }
  }

  lemma ChildStarts(p: Problem, b: Block, done: set<Block>, code0: map<Block, seq<Instr>>,
          code1: map<Block, seq<Instr>>, code2: map<Block, seq<Instr>>)
    requires p.Analysed() && b in p.f.g.blocks && Reachable(p.f.g, b)
    requires CodeRenamed(p, b, End(p, b).sub, code0, code1) && code2.Keys == code1.Keys
    requires CodeInv(p, code2, done + {b}) && Clear(code2, Loads(p, done + {b})) && RestsKept(p, code1, code2)
        && HeadsKept(p, code1, code2)
    ensures ChildState(p, b, done, BelowChildren(p.f.g, {}), code0, code2)
  {
    hide Clear, Loads;
    var ren := BelowChildren(p.f.g, {});
    assert ren == {};
    assert done + {b} + ren == done + {b};
    forall c | c in p.f.g.blocks && Reachable(p.f.g, c)
      ensures ChildAt(p, b, ren, code0, code2, c)
    {
      assert BlockRenamed(p, b, End(p, b).sub, code0, code1, c);
    }
  }

  /** An unvisited child is ready: its subtree is untouched and nothing in it is done. */
  lemma ChildReady(p: Problem, b: Block, done: set<Block>, seen: set<Block>, s: Block, code0: map<Block, seq<Instr>>,
          code: map<Block, seq<Instr>>,
                   treeSucc: map<Block, set<Block>>)
    requires p.Valid() && b in p.f.g.blocks && Reachable(p.f.g, b) && TreeOk(p, treeSucc)
    requires s in treeSucc[b] && s !in seen && seen <= treeSucc[b]
    requires ChildState(p, b, done, BelowChildren(p.f.g, seen), code0, code)
    requires (forall c :: c in p.f.g.blocks && Dom(p.f.g, b, c) ==> c !in done) && RestHasNoPhis(p, code)
    ensures s in p.f.g.blocks && Reachable(p.f.g, s)
    ensures ReadyFor(p, s, done + {b} + BelowChildren(p.f.g, seen), code)
  {
    assert p.Analysed() && p.f.g.Valid();
    hide *;
    var ren := BelowChildren(p.f.g, seen);
    ChildFacts(p, b, s, treeSucc);
    forall c | c in p.f.g.blocks && Dom(p.f.g, s, c)
      ensures c !in done + {b} + ren
      ensures c in code && RestOf(code[c]) == SubList(Start(p, s).sub, p.f.code[c])
    {
      ChildReadyAt(p, b, done, seen, s, code0, code, treeSucc, c);
    }
    ReadyIntro(p, b, s, done, ren, code0, code);
  }

  lemma ReadyIntro(p: Problem, b: Block, s: Block, done: set<Block>, ren: set<Block>, code0: map<Block, seq<Instr>>,
          code: map<Block, seq<Instr>>)
    requires p.Analysed() && b in p.f.g.blocks && Reachable(p.f.g, b) && s in p.f.g.blocks && Reachable(p.f.g, s)
    requires ChildState(p, b, done, ren, code0, code) && RestHasNoPhis(p, code)
    requires forall c :: c in p.f.g.blocks && Dom(p.f.g, s, c) ==>
               c !in done + {b} + ren && c in code && RestOf(code[c]) == SubList(Start(p, s).sub, p.f.code[c])
    ensures ReadyFor(p, s, done + {b} + ren, code)
  {
    hide Reachable, Dom, CodeInv, RestHasNoPhis, RestOf, Start, ChildAt, Problem.Analysed, Clear, Loads;
  }

  lemma ChildReadyAt(p: Problem, b: Block, done: set<Block>, seen: set<Block>, s: Block,
          code0: map<Block, seq<Instr>>, code: map<Block, seq<Instr>>,
                     treeSucc: map<Block, set<Block>>, c: Block)
    requires p.Analysed() && b in p.f.g.blocks && Reachable(p.f.g, b) && TreeOk(p, treeSucc)
    requires s in treeSucc[b] && s !in seen && seen <= treeSucc[b]
    requires s in p.f.g.blocks && Reachable(p.f.g, s)
    requires ChildState(p, b, done, BelowChildren(p.f.g, seen), code0, code)
    requires forall c :: c in p.f.g.blocks && Dom(p.f.g, b, c) ==> c !in done
    requires c in p.f.g.blocks && Dom(p.f.g, s, c)
    ensures c !in done + {b} + BelowChildren(p.f.g, seen)
    ensures c in code && c in p.f.code && RestOf(code[c]) == SubList(Start(p, s).sub, p.f.code[c])
  {
    ChildFacts(p, b, s, treeSucc);
    DomReachable(p.f.g, s, c);
    DomTransitive(p.f.g, b, s, c);
    ChildUnvisited(p, b, seen, s, c, treeSucc);
    assert ChildAt(p, b, BelowChildren(p.f.g, seen), code0, code, c);
  }

  lemma ChildFacts(p: Problem, b: Block, s: Block, treeSucc: map<Block, set<Block>>)
    requires p.Analysed() && b in p.f.g.blocks && Reachable(p.f.g, b) && TreeOk(p, treeSucc) && s in treeSucc[b]
    ensures s in p.f.g.blocks && Reachable(p.f.g, s) && s != p.f.g.Entry() && p.idom[s] == b
    ensures Start(p, s).sub == End(p, b).sub && Dom(p.f.g, b, s) && !Dom(p.f.g, s, b)
    ensures Depth(p.f.g, b) < Depth(p.f.g, s) && InEnv(p, s) == End(p, b).env
  {
    StartFromIdom(p, s);
    ChildNotAboveParent(p, b, s);
  }

  lemma ChildUnvisited(p: Problem, b: Block, seen: set<Block>, s: Block, c: Block, treeSucc: map<Block, set<Block>>)
    requires p.Analysed() && b in p.f.g.blocks && Reachable(p.f.g, b) && TreeOk(p, treeSucc)
    requires s in treeSucc[b] && s !in seen && seen <= treeSucc[b] && Dom(p.f.g, s, c)
    ensures c !in BelowChildren(p.f.g, seen) && c != b
  {
    ChildFacts(p, b, s, treeSucc);
    if c in BelowChildren(p.f.g, seen) {
      var t :| t in seen && Dom(p.f.g, t, c);
      ChildFacts(p, b, t, treeSucc);
      SiblingsDisjoint(p, b, s, t, c);
    }
  }

  lemma ChildAtNext(p: Problem, b: Block, s: Block, ren: set<Block>, ren': set<Block>, code0: map<Block, seq<Instr>>,
                    code: map<Block, seq<Instr>>, code': map<Block, seq<Instr>>, c: Block)
    requires p.Analysed() && b in p.f.g.blocks && Reachable(p.f.g, b) && c in p.f.g.blocks && Reachable(p.f.g, c)
    requires ChildAt(p, b, ren, code0, code, c) && RenamedAt(p, s, code, code', c)
    requires c in ren' <==> c in ren || Dom(p.f.g, s, c)
    ensures ChildAt(p, b, ren', code0, code', c)
  {
    hide Reachable, Dom, NewRest, End, Problem.Analysed;
  }

  lemma ChildNext(p: Problem, b: Block, done: set<Block>, seen: set<Block>, s: Block, code0: map<Block, seq<Instr>>,
                  code: map<Block, seq<Instr>>, code': map<Block, seq<Instr>>)
    requires p.Analysed() && b in p.f.g.blocks && Reachable(p.f.g, b)
    requires ChildState(p, b, done, BelowChildren(p.f.g, seen), code0, code)
    requires Renamed(p, s, done + {b} + BelowChildren(p.f.g, seen), code, code')
    ensures ChildState(p, b, done, BelowChildren(p.f.g, seen + {s}), code0, code')
  {
    hide Reachable, ChildAt, RenamedAt, CodeInv, Problem.Analysed, BelowChildren, Dom, Clear, Loads;
    AnalysedGraph(p);
    var ren, ren' := BelowChildren(p.f.g, seen), BelowChildren(p.f.g, seen + {s});
    BelowNext(p.f.g, seen, s);
    assert done + {b} + ren' == done + {b} + ren + Subtree(p.f.g, s);
    forall c | c in p.f.g.blocks && Reachable(p.f.g, c)
      ensures ChildAt(p, b, ren', code0, code', c)
    {
      assert ChildAt(p, b, ren, code0, code, c);
      assert RenamedAt(p, s, code, code', c);
      assert c in ren' <==> c in ren || c in Subtree(p.f.g, s);
      ChildAtNext(p, b, s, ren, ren', code0, code, code', c);
    }
  }

  lemma AnalysedGraph(p: Problem)
    requires p.Analysed()
    ensures p.f.g.Valid()
  {
  }

  /** When all children have been visited everything strictly below b is renamed. */
  lemma ChildrenCover(p: Problem, b: Block, treeSucc: map<Block, set<Block>>)
    requires p.Analysed() && b in p.f.g.blocks && Reachable(p.f.g, b) && TreeOk(p, treeSucc)
    ensures {b} + BelowChildren(p.f.g, treeSucc[b]) == Subtree(p.f.g, b)
    ensures b !in BelowChildren(p.f.g, treeSucc[b])
  {
    hide Reachable;
    DomReflexive(p.f.g, b);
    forall c
      ensures c in {b} + BelowChildren(p.f.g, treeSucc[b]) <==> c in Subtree(p.f.g, b)
      ensures c in BelowChildren(p.f.g, treeSucc[b]) ==> c != b
    {
      if c in BelowChildren(p.f.g, treeSucc[b]) {
        var s :| s in treeSucc[b] && Dom(p.f.g, s, c);
        ChildNotAboveParent(p, b, s);
        DomTransitive(p.f.g, b, s, c);
      }
      if c in Subtree(p.f.g, b) && c != b {
        var s := BelowSomeChild(p, b, c);
        assert s in treeSucc[b];
      }
    }
  }

  // ---------- deleting the promoted loads and stores of a block ----------

  function Erase(list: seq<Instr>, id: Value): seq<Instr> {
    EraseAll(list, {id})
  }

  function EraseAll(list: seq<Instr>, ids: set<Value>): seq<Instr> {
    if |list| == 0 then []
    else (if list[0].id in ids then [] else [list[0]]) + EraseAll(list[1..], ids)
  }

  lemma {:induction false} EraseOneMore(list: seq<Instr>, ids: set<Value>, id: Value)
    ensures Erase(EraseAll(list, ids), id) == EraseAll(list, ids + {id})
  {
    if |list| > 0 {
      EraseOneMore(list[1..], ids, id);
      if list[0].id !in ids {
        assert EraseAll(list, ids) == [list[0]] + EraseAll(list[1..], ids);
        assert ([list[0]] + EraseAll(list[1..], ids))[1..] == EraseAll(list[1..], ids);
      } else {
        assert EraseAll(list, ids) == EraseAll(list[1..], ids);
      }
    }
  }

  lemma {:induction false} EraseNothing(list: seq<Instr>, ids: set<Value>)
    requires forall i :: 0 <= i < |list| ==> list[i].id !in ids
    ensures EraseAll(list, ids) == list
  {
    if |list| > 0 {
      EraseNothing(list[1..], ids);
    }
  }

  lemma {:induction false} EraseConcat(a: seq<Instr>, b: seq<Instr>, ids: set<Value>)
    ensures EraseAll(a + b, ids) == EraseAll(a, ids) + EraseAll(b, ids)
  {
    if |a| > 0 {
      assert (a + b)[1..] == a[1..] + b;
      EraseConcat(a[1..], b, ids);
    } else {
      assert a + b == b;
    }
  }

  /** Deleting exactly the cell accesses, by their ids, keeps the others. */
  lemma {:induction false} EraseIsKeep(sub: map<Value, Value>, list: seq<Instr>, ids: set<Value>)
    requires forall i :: 0 <= i < |list| ==> (list[i].id in ids <==> list[i].IsCellAccess())
    ensures EraseAll(SubList(sub, list), ids) == SubList(sub, Keep(list))
  {
    if |list| > 0 {
      assert SubList(sub, list)[1..] == SubList(sub, list[1..]);
      EraseIsKeep(sub, list[1..], ids);
      if !list[0].IsCellAccess() {
        SubListCons(sub, list[0], Keep(list[1..]));
      } else {
        assert Keep(list) == Keep(list[1..]);
      }
    }
  }

  lemma {:induction false} CellIdsAre(f: Function, b: Block, i: int, x: Value)
    requires b in f.code && 0 <= i <= |f.code[b]|
    ensures x in CellIds(f.code[b], i) <==> exists j ::
        0 <= j < i && f.code[b][j].IsCellAccess() && f.code[b][j].id == x
  {
    if i > 0 {
      CellIdsAre(f, b, i - 1, x);
    }
  }

  lemma CellIdsExact(p: Problem, b: Block, ids: set<Value>)
    requires p.Valid() && b in p.f.g.blocks && Reachable(p.f.g, b) && b in p.f.code
    requires ids == SetOf(CellIds(p.f.code[b], |p.f.code[b]|))
    ensures forall i :: 0 <= i < |p.f.code[b]| ==> (p.f.code[b][i].id in ids <==> p.f.code[b][i].IsCellAccess())
    ensures forall x :: x in ids ==> !x.Phi?
  {
    var list := p.f.code[b];
    forall i | 0 <= i < |list|
      ensures list[i].id in ids <==> list[i].IsCellAccess()
    {
      CellIdsAre(p.f, b, |list|, list[i].id);
    }
    forall x | x in ids
      ensures !x.Phi?
    {
      CellIdsAre(p.f, b, |list|, x);
    }
  }

  /** Deleting the collected ids from block b leaves its final form. */
  lemma EraseBlock(p: Problem, b: Block, heads: seq<Instr>, list: seq<Instr>, ids: set<Value>)
    requires p.Valid() && b in p.f.g.blocks && Reachable(p.f.g, b) && b in p.f.code
    requires list == heads + SubList(End(p, b).sub, p.f.code[b]) && HeadShape(p, b, heads)
    requires ids == SetOf(CellIds(p.f.code[b], |p.f.code[b]|))
    ensures EraseAll(list, ids) == heads + NewRest(p, b)
  {
    CellIdsExact(p, b, ids);
    EraseConcat(heads, SubList(End(p, b).sub, p.f.code[b]), ids);
    EraseNothing(heads, ids);
    EraseIsKeep(End(p, b).sub, p.f.code[b], ids);
  }

  // ---------- popping ----------

  lemma {:induction false} KeysMono(list: seq<Instr>, i: int, n: int)
    requires 0 <= i <= n <= |list|
    ensures KeysUpTo(list, i) <= KeysUpTo(list, n)
  {
    if i < n {
      KeysMono(list, i, n - 1);
    }
  }

  /** Popping the key of instruction i from what is left to pop. */
  lemma KeysLeft(list: seq<Instr>, i: int)
    requires 0 <= i < |list|
    ensures var left, left' := KeysUpTo(list, |list|) - KeysUpTo(list, i),
        KeysUpTo(list, |list|) - KeysUpTo(list, i + 1);
            && (KeyOf(list[i]).Some? ==> KeyOf(list[i]).value in left && left' == left - multiset{KeyOf(list[i]).value})
            && (KeyOf(list[i]).None? ==> left' == left)
  {
    KeysMono(list, i + 1, |list|);
    KeysMono(list, i, |list|);
  }

  lemma {:induction false} KeysSame(l0: seq<Instr>, l1: seq<Instr>, i: int)
    requires |l0| == |l1| && 0 <= i <= |l0| && forall j :: 0 <= j < |l0| ==> KeyOf(l0[j]) == KeyOf(l1[j])
    ensures KeysUpTo(l0, i) == KeysUpTo(l1, i)
  {
    if i > 0 {
      KeysSame(l0, l1, i - 1);
    }
  }

  // ---------- the steps of one call put together ----------

  lemma EmptyStacks(p: Problem, b: Block)
    requires p.Analysed() && b in p.f.g.blocks && Reachable(p.f.g, b) && b == p.f.g.Entry()
    ensures StackIs(map[], InEnv(p, b))
  {
  }

  lemma ReadyFacts(p: Problem, b: Block, done: set<Block>, code: map<Block, seq<Instr>>)
    requires p.Analysed() && b in p.f.g.blocks && Reachable(p.f.g, b) && ReadyFor(p, b, done, code)
    ensures CodeInv(p, code, done) && Clear(code, Loads(p, done)) && SubtreeIs(p, code, b, Start(p, b).sub)
        && RestHasNoPhis(p, code)
    ensures b !in done && forall c :: c in p.f.g.blocks && Dom(p.f.g, b, c) ==> c !in done
  {
    DomReflexive(p.f.g, b);
  }

  /** A promoted load among the operands of c, as seen by a walk that reached (b, k). */
  lemma OperandScoped(p: Problem, c: Block, n: int, b: Block, k: int, x: Value, d: Block, j: int)
    requires p.Valid() && c in p.f.g.blocks && Reachable(p.f.g, c) && b in p.f.g.blocks && Reachable(p.f.g, b)
    requires 0 <= k <= |p.f.code[b]| && 0 <= n < |p.f.code[c]| && x in p.f.code[c][n].operands
    requires StateOk(p, b, k, At(p, b, k))
    requires DefinedAt(p.f, Sub(At(p, b, k).sub, x), d, j) && p.f.code[d][j].IsCellLoad()
    ensures Dom(p.f.g, d, c)
  {
    if x in At(p, b, k).sub {
      StableIsNoLoad(p, b, k, At(p, b, k).sub[x], d, j);
    } else {
      assert InScope(p.f, c, n, x);
      DomReflexive(p.f.g, c);
    }
  }

  lemma ScopedSub(p: Problem, c: Block, b: Block, k: int, list: seq<Instr>)
    requires p.Valid() && c in p.f.g.blocks && Reachable(p.f.g, c) && b in p.f.g.blocks && Reachable(p.f.g, b)
    requires 0 <= k <= |p.f.code[b]| && forall ins :: ins in list ==> ins in p.f.code[c]
    ensures Scoped(p, c, SubList(At(p, b, k).sub, list))
  {
    hide Reachable, Dom;
    var sub := At(p, b, k).sub;
    StateOkAt(p, b, k);
    assert p.Analysed() && c in p.f.code;
    hide Problem.Valid, Problem.Analysed, StateOk, At;
    forall ins, o, d, j | ins in SubList(sub, list) && o in ins.operands && DefinedAt(p.f, o, d, j)
        && p.f.code[d][j].IsCellLoad() && Reachable(p.f.g, d)
      ensures Dom(p.f.g, d, c)
    {
      var i :| 0 <= i < |list| && SubInstr(sub, list[i]) == ins;
      var m :| 0 <= m < |list[i].operands| && Sub(sub, list[i].operands[m]) == o;
      assert list[i] in p.f.code[c];
      var n :| 0 <= n < |p.f.code[c]| && p.f.code[c][n] == list[i];
      OperandScoped(p, c, n, b, k, list[i].operands[m], d, j);
    }
  }

  lemma StableIsNoLoad(p: Problem, b: Block, k: int, o: Value, d: Block, j: int)
    requires p.Valid() && Stable(p, b, k, o) && DefinedAt(p.f, o, d, j)
    ensures !p.f.code[d][j].IsCellLoad()
  {
  }

  lemma {:induction false} KeepFrom(list: seq<Instr>)
    ensures forall ins :: ins in Keep(list) ==> ins in list
  {
    if |list| > 0 {
      KeepFrom(list[1..]);
    }
  }

  lemma NewRestScoped(p: Problem, b: Block)
    requires p.Valid() && b in p.f.g.blocks && Reachable(p.f.g, b)
    ensures Scoped(p, b, NewRest(p, b)) && |NewRest(p, b)| > 0
    ensures forall i :: 0 <= i < |NewRest(p, b)| ==> !NewRest(p, b)[i].IsPhi()
  {
    KeepFrom(p.f.code[b]);
    EndIsAt(p, b);
    ScopedSub(p, b, b, |p.f.code[b]|, Keep(p.f.code[b]));
    BlockFacts(p, b);
    forall i | 0 <= i < |NewRest(p, b)|
      ensures !NewRest(p, b)[i].IsPhi()
    {
      assert Keep(p.f.code[b])[i] in p.f.code[b];
    }
    NewRestShape(p, b);
  }

  /** Renaming the uses of b keeps what holds of every block. */
  lemma UsesKeepInv(p: Problem, b: Block, done: set<Block>, code0: map<Block, seq<Instr>>, code: map<Block, seq<Instr>>)
    requires p.Valid() && b in p.f.g.blocks && Reachable(p.f.g, b)
    requires CodeInv(p, code0, done) && RestHasNoPhis(p, code0) && CodeRenamed(p, b, End(p, b).sub, code0, code)
    ensures CodeInv(p, code, done) && RestHasNoPhis(p, code)
  {
    EndIsAt(p, b);
    forall c | c in p.f.g.blocks && Reachable(p.f.g, c)
      ensures c in code && BlockInv(p, c, code[c], done)
      ensures forall i :: 0 <= i < |RestOf(code[c])| ==> !RestOf(code[c])[i].IsPhi()
    {
      UsesKeepBlock(p, b, done, code0, code, c);
    }
  }

  lemma UsesKeepBlock(p: Problem, b: Block, done: set<Block>, code0: map<Block, seq<Instr>>,
          code: map<Block, seq<Instr>>, c: Block)
    requires p.Valid() && b in p.f.g.blocks && Reachable(p.f.g, b) && c in p.f.g.blocks && Reachable(p.f.g, c)
    requires CodeInv(p, code0, done) && RestHasNoPhis(p, code0) && CodeRenamed(p, b, End(p, b).sub, code0, code)
    ensures c in code && BlockInv(p, c, code[c], done)
    ensures forall i :: 0 <= i < |RestOf(code[c])| ==> !RestOf(code[c])[i].IsPhi()
  {
    hide Reachable, PathTo;
    assert BlockRenamed(p, b, End(p, b).sub, code0, code, c);
    CodeInvAt(p, code0, done, c);
    if Dom(p.f.g, b, c) {
      EndIsAt(p, b);
      ScopedSub(p, c, b, |p.f.code[b]|, p.f.code[c]);
      BlockFacts(p, c);
    }
  }

  lemma RestsKeepNoPhis(p: Problem, code0: map<Block, seq<Instr>>, code: map<Block, seq<Instr>>)
    requires p.Analysed() && RestHasNoPhis(p, code0) && RestsKept(p, code0, code)
    ensures RestHasNoPhis(p, code)
  {
  }

  /** The code of b after its children have been visited. */
  lemma BlockAfterChildren(p: Problem, b: Block, done: set<Block>, ren: set<Block>, code0: map<Block, seq<Instr>>,
          code: map<Block, seq<Instr>>)
    requires p.Analysed() && b in p.f.g.blocks && Reachable(p.f.g, b) && ChildState(p, b, done, ren, code0, code)
        && b !in ren
    ensures b in code && b in code0 && b in p.f.code && code[b] == PhisOf(code[b]) + SubList(End(p, b).sub, p.f.code[b])
    ensures HeadShape(p, b, PhisOf(code[b])) && SameIds(PhisOf(code0[b]), PhisOf(code[b]))
  {
    DomReflexive(p.f.g, b);
    assert ChildAt(p, b, ren, code0, code, b);
    CodeInvAt(p, code, done + {b} + ren, b);
    hide CodeInv, Problem.Analysed, Fed, Clean, Scoped, DistinctIds;
  }

  lemma BodyKeySub(p: Problem, b: Block, k: int)
    requires p.Valid() && b in p.f.g.blocks && Reachable(p.f.g, b) && 0 <= k < |p.f.code[b]|
    ensures var o := p.f.code[b][k]; var ins := SubInstr(End(p, b).sub, o);
            && KeyOf(ins) == KeyOf(o) && !ins.IsPhi()
            && (ins.op.OpStore? ==> |ins.operands| == 2)
            && (ins.IsCellStore() <==> ins.op.OpStore? && !ins.operands[1].Global? && !ins.operands[1].Gep?)
  {
    BlockFacts(p, b);
    EndIsAt(p, b);
    StateOkAt(p, b, |p.f.code[b]|);
    var o := p.f.code[b][k];
    if o.op.OpStore? {
      assert o.operands[1] !in End(p, b).sub;
    }
  }

  /** What popping needs to know of the instructions of b. */
  ghost predicate Poppable(m: map<Value, Value>, list: seq<Instr>) {
    forall j :: 0 <= j < |list| ==>
      && (list[j].IsPhi() ==> list[j].id.Phi? && PhiVal(m, list[j].id) == list[j].id.of)
      && (list[j].op.OpStore? ==> |list[j].operands| == 2)
      && (list[j].IsCellStore() <==> list[j].op.OpStore? && !list[j].operands[1].Global? && !list[j].operands[1].Gep?)
  }

  lemma PopReady(p: Problem, b: Block, heads0: seq<Instr>, heads: seq<Instr>, m: map<Value, Value>)
    requires p.Valid() && b in p.f.g.blocks && Reachable(p.f.g, b) && b in p.f.code
    requires HeadShape(p, b, heads) && SameIds(heads0, heads) && PhisMapped(m, p.phiVars)
    ensures var list0, list := heads0 + p.f.code[b], heads + SubList(End(p, b).sub, p.f.code[b]);
            && |list0| == |list| && Poppable(m, list)
            && KeysUpTo(list0, |list0|) == KeysUpTo(list, |list|)
  {
    var list0, list := heads0 + p.f.code[b], heads + SubList(End(p, b).sub, p.f.code[b]);
    forall j | 0 <= j < |list|
      ensures KeyOf(list0[j]) == KeyOf(list[j])
      ensures list[j].IsPhi() ==> list[j].id.Phi? && PhiVal(m, list[j].id) == list[j].id.of
      ensures list[j].op.OpStore? ==> |list[j].operands| == 2
      ensures list[j].IsCellStore() <==>
          list[j].op.OpStore? && !list[j].operands[1].Global? && !list[j].operands[1].Gep?
    {
      if j < |heads| {
        HeadMapped(p, b, heads, j, m);
      } else {
        BodyKeySub(p, b, j - |heads|);
      }
    }
    KeysSame(list0, list, |list|);
  }

  /** Deleting b's loads and stores completes the call. */
  lemma RenameEnds(p: Problem, b: Block, done: set<Block>, ren: set<Block>, code0: map<Block, seq<Instr>>,
          code: map<Block, seq<Instr>>, list: seq<Instr>)
    requires p.Valid() && b in p.f.g.blocks && Reachable(p.f.g, b) && b !in ren && {b} + ren == Subtree(p.f.g, b)
    requires ChildState(p, b, done, ren, code0, code) && RestHasNoPhis(p, code)
    requires b in code && list == PhisOf(code[b]) + NewRest(p, b)
    ensures Renamed(p, b, done, code0, code[b := list]) && RestHasNoPhis(p, code[b := list])
  {
    hide *;
    ProblemFacts(p, b);
    ErasedClear(p, b, done, ren, code0, code, list);
    var code' := code[b := list];
    forall c | c in p.f.g.blocks && Reachable(p.f.g, c)
      ensures c in code' && BlockInv(p, c, code'[c], done + Subtree(p.f.g, b))
      ensures RenamedAt(p, b, code0, code', c)
      ensures forall i :: 0 <= i < |RestOf(code'[c])| ==> !RestOf(code'[c])[i].IsPhi()
    {
      if c == b {
        RenameEndsHere(p, b, done, ren, code0, code, list);
      } else {
        RenameEndsElsewhere(p, b, done, ren, code0, code, code', c);
      }
    }
    RenamedIntro(p, b, done, ren, code0, code, code');
  }

  /** Where an instruction that is kept stood. */
  lemma {:induction false} KeptFrom(list: seq<Instr>, i: int) returns (j: int)
    requires 0 <= i < |Keep(list)|
    ensures 0 <= j < |list| && list[j] == Keep(list)[i]
  {
    if list[0].IsCellAccess() {
      j := KeptFrom(list[1..], i);
      j := j + 1;
    } else if i == 0 {
      j := 0;
    } else {
      j := KeptFrom(list[1..], i - 1);
      j := j + 1;
    }
  }

  lemma KeptClear(heads: seq<Instr>, sub: map<Value, Value>, list: seq<Instr>, gone: set<Value>)
    requires ClearList(heads + SubList(sub, list), gone)
    ensures ClearList(heads + SubList(sub, Keep(list)), gone)
  {
    hide ClearInstr, SubInstr, Keep;
    var all, kept := heads + SubList(sub, list), heads + SubList(sub, Keep(list));
    forall i | 0 <= i < |kept| ensures ClearInstr(kept[i], gone) {
      if i < |heads| {
        assert kept[i] == all[i];
      } else {
        var j := KeptFrom(list, i - |heads|);
        assert kept[i] == all[|heads| + j];
      }
    }
  }

  /** Deleting instructions keeps the rest clear. */
  lemma ErasedClear(p: Problem, b: Block, done: set<Block>, ren: set<Block>, code0: map<Block, seq<Instr>>,
          code: map<Block, seq<Instr>>, list: seq<Instr>)
    requires p.Analysed() && b in p.f.g.blocks && Reachable(p.f.g, b) && b !in ren && {b} + ren == Subtree(p.f.g, b)
    requires ChildState(p, b, done, ren, code0, code) && b in code && list == PhisOf(code[b]) + NewRest(p, b)
    ensures Clear(code[b := list], Loads(p, done + Subtree(p.f.g, b)))
  {
    hide Problem.Analysed, Reachable, ClearList, Loads, CodeInv, Dom, Subtree;
    AnalysedGraph(p);
    BlockAfterChildren(p, b, done, ren, code0, code);
    assert done + {b} + ren == done + Subtree(p.f.g, b);
    KeptClear(PhisOf(code[b]), End(p, b).sub, p.f.code[b], Loads(p, done + Subtree(p.f.g, b)));
  }

  lemma RenamedIntro(p: Problem, b: Block, done: set<Block>, ren: set<Block>, code0: map<Block, seq<Instr>>,
                     code: map<Block, seq<Instr>>, code': map<Block, seq<Instr>>)
    requires p.Analysed() && b in p.f.g.blocks && Reachable(p.f.g, b)
    requires ChildState(p, b, done, ren, code0, code) && code'.Keys == code.Keys
        && Clear(code', Loads(p, done + Subtree(p.f.g, b)))
    requires forall c :: c in p.f.g.blocks && Reachable(p.f.g, c) ==>
               c in code' && BlockInv(p, c, code'[c], done + Subtree(p.f.g, b))
    requires forall c {:trigger RenamedAt(p, b, code0, code', c)} ::
               c in p.f.g.blocks && Reachable(p.f.g, c) ==> RenamedAt(p, b, code0, code', c)
    requires forall c :: c in p.f.g.blocks && Reachable(p.f.g, c) && c in code' ==>
               forall i :: 0 <= i < |RestOf(code'[c])| ==> !RestOf(code'[c])[i].IsPhi()
    ensures Renamed(p, b, done, code0, code') && RestHasNoPhis(p, code')
  {
    hide Clear, Loads, BlockInv, Reachable;
  }

  lemma RenameEndsHere(p: Problem, b: Block, done: set<Block>, ren: set<Block>, code0: map<Block, seq<Instr>>,
          code: map<Block, seq<Instr>>, list: seq<Instr>)
    requires p.Valid() && b in p.f.g.blocks && Reachable(p.f.g, b) && {b} + ren == Subtree(p.f.g, b)
    requires ChildState(p, b, done, ren, code0, code)
    requires b in code && list == PhisOf(code[b]) + NewRest(p, b)
    ensures BlockInv(p, b, list, done + Subtree(p.f.g, b))
    ensures RenamedAt(p, b, code0, code[b := list], b)
    ensures forall i :: 0 <= i < |RestOf(list)| ==> !RestOf(list)[i].IsPhi()
  {
    hide Reachable, CodeInv, BlockInv, NewRest, Scoped, Dom, PhisOf, RestOf, Problem.Valid, Problem.Analysed;
    ProblemFacts(p, b);
    NewRestScoped(p, b);
    PhisThenRest(code[b], NewRest(p, b));
    assert done + {b} + ren == done + Subtree(p.f.g, b);
    CodeInvAt(p, code, done + {b} + ren, b);
    SamePhis(p, b, code[b], list, done + Subtree(p.f.g, b));
    assert ChildAt(p, b, ren, code0, code, b);
    DomReflexive(p.f.g, b);
  }

  lemma PhisThenRest(list: seq<Instr>, rest: seq<Instr>)
    requires forall i :: 0 <= i < |rest| ==> !rest[i].IsPhi()
    ensures PhisOf(PhisOf(list) + rest) == PhisOf(list) && RestOf(PhisOf(list) + rest) == rest
  {
    PhiCountSplit(PhisOf(list), rest);
  }

  lemma SamePhis(p: Problem, b: Block, before: seq<Instr>, list: seq<Instr>, done: set<Block>)
    requires p.Analysed() && b in p.f.g.blocks && BlockInv(p, b, before, done) && PhisOf(list) == PhisOf(before)
        && Scoped(p, b, RestOf(list))
    ensures BlockInv(p, b, list, done)
  {
  }

  lemma RenameEndsElsewhere(p: Problem, b: Block, done: set<Block>, ren: set<Block>, code0: map<Block, seq<Instr>>,
                            code: map<Block, seq<Instr>>, code': map<Block, seq<Instr>>, c: Block)
    requires p.Analysed() && b in p.f.g.blocks && Reachable(p.f.g, b) && {b} + ren == Subtree(p.f.g, b)
    requires ChildState(p, b, done, ren, code0, code) && RestHasNoPhis(p, code)
    requires c in p.f.g.blocks && Reachable(p.f.g, c) && c != b && (c in code ==> c in code' && code'[c] == code[c])
    ensures c in code' && BlockInv(p, c, code'[c], done + Subtree(p.f.g, b))
    ensures RenamedAt(p, b, code0, code', c)
    ensures forall i :: 0 <= i < |RestOf(code'[c])| ==> !RestOf(code'[c])[i].IsPhi()
  {
    hide Reachable;
    assert done + {b} + ren == done + Subtree(p.f.g, b);
    CodeInvAt(p, code, done + {b} + ren, c);
    assert ChildAt(p, b, ren, code0, code, c);
    assert c in Subtree(p.f.g, b) <==> Dom(p.f.g, b, c);
    assert c in ren <==> c in Subtree(p.f.g, b);
  }
}
