/** The promotion pass: phi insertion by worklist, then renaming along the
    dominator tree with one stack of definitions per variable. */
module Mem2Reg {
  import opened Cfg
  import opened Frontier
  import D = Dominators
  import opened Ir
  import opened Exec
  import opened Renaming
  import opened Promotion
  import opened PhiPlacement
  import opened RenameState
  import opened RenameTree
  import opened PhiPairs
  import opened Unreached

  /** The code of every block after phi insertion, for the phis in phiVars. */
  ghost predicate PhisInserted(f: Function, code: map<Block, seq<Instr>>, phiVars: map<Block, set<Value>>) {
    && code.Keys == f.code.Keys && phiVars.Keys == f.code.Keys
    && forall b :: b in f.code ==> HeadsOk(f, b, code[b], phiVars[b])
  }

  function AddPhi(phiVars: map<Block, set<Value>>, b: Block, v: Value): map<Block, set<Value>>
    requires b in phiVars
  {
    phiVars[b := phiVars[b] + {v}]
  }

  /** The phis in phiVars for v are exactly those of f, and no other variable's changed. */
  ghost predicate PlacedAt(before: map<Block, set<Value>>, after: map<Block, set<Value>>, v: Value, at: seq<Block>) {
    && after.Keys == before.Keys
    && forall b :: b in after ==> after[b] == before[b] + (if b in at then {v} else {})
  }

  lemma PlaceOne(f: Function, code: map<Block, seq<Instr>>, m: map<Value, Value>, phiVars: map<Block, set<Value>>,
                 phiVars0: map<Block, set<Value>>, v: Value, at: seq<Block>, y: Block)
    requires PhisInserted(f, code, phiVars) && PhisMapped(m, phiVars) && PlacedAt(phiVars0, phiVars, v, at)
    requires y in f.code && y !in at && v != Null && forall b :: b in phiVars0 ==> v !in phiVars0[b]
    ensures y in code && y in phiVars && PhisInserted(f, code[y := [NewPhi(v, y)] + code[y]], AddPhi(phiVars, y, v))
    ensures PhisMapped(m[Phi(v, y) := v], AddPhi(phiVars, y, v))
    ensures PlacedAt(phiVars0, AddPhi(phiVars, y, v), v, at + [y])
  {
    assert y in code.Keys && y in phiVars.Keys;
    hide PlacedAt, PhisMapped;
    NotYetPlaced(phiVars0, phiVars, v, at, y);
    InsertedMore(f, code, phiVars, v, y);
    MappedMore(m, phiVars, v, y);
    PlacedMore(phiVars, phiVars0, v, at, y);
  }

  lemma InsertedMore(f: Function, code: map<Block, seq<Instr>>, phiVars: map<Block, set<Value>>, v: Value, y: Block)
    requires PhisInserted(f, code, phiVars) && y in f.code && y in code && y in phiVars && v !in phiVars[y] && v != Null
    ensures PhisInserted(f, code[y := [NewPhi(v, y)] + code[y]], AddPhi(phiVars, y, v))
  {
    hide HeadsOk;
    HeadsPush(f, y, code[y], phiVars[y], v);
  }

  lemma MappedMore(m: map<Value, Value>, phiVars: map<Block, set<Value>>, v: Value, y: Block)
    requires PhisMapped(m, phiVars) && y in phiVars && v != Null
    ensures PhisMapped(m[Phi(v, y) := v], AddPhi(phiVars, y, v))
  {
  }

  lemma PlacedMore(phiVars: map<Block, set<Value>>, phiVars0: map<Block, set<Value>>, v: Value, at: seq<Block>,
          y: Block)
    requires PlacedAt(phiVars0, phiVars, v, at) && y in phiVars
    ensures PlacedAt(phiVars0, AddPhi(phiVars, y, v), v, at + [y])
  {
  }

  lemma NotYetPlaced(phiVars0: map<Block, set<Value>>, phiVars: map<Block, set<Value>>, v: Value, at: seq<Block>,
          y: Block)
    requires PlacedAt(phiVars0, phiVars, v, at) && y in phiVars && y !in at && forall b ::
        b in phiVars0 ==> v !in phiVars0[b]
    ensures v !in phiVars[y]
  {
  }

  /** The reachable blocks listed are those of the iterated frontier of s. */
  ghost predicate IsIDF(g: Graph, s: seq<Block>, placed: seq<Block>) {
    && g.Valid()
    && forall y :: y in g.blocks && Reachable(g, y) ==> (y in placed <==> InIDF(g, SetOf(s), y))
  }

  lemma FoundIDF(g: Graph, s: seq<Block>, placed: seq<Block>)
    requires g.Valid() && forall y :: y in g.blocks && Reachable(g, y) ==> (y in placed <==> InIDF(g, SetOf(s), y))
    ensures IsIDF(g, s, placed)
  {
  }

  class Mem2Reg {
    var code: map<Block, seq<Instr>>
    var vals: seq<Value>
    var valBbMap: map<Value, seq<Block>>
    var stack: map<Value, seq<Value>>
    var phiToVal: map<Value, Value>

    constructor (code0: map<Block, seq<Instr>>)
      ensures code == code0 && phiToVal == map[]
    {
      code := code0;
      vals, valBbMap, stack, phiToVal := [], map[], map[], map[];
    }

    method VarClear()
      modifies `vals, `valBbMap
      ensures vals == [] && valBbMap == map[]
    {
      vals, valBbMap := [], map[];
    }

    /** Scan one block for stores to promoted variables. */
    method ScanBlock(t: Block, ghost f: Function, ghost bs: seq<Block>)
      requires t in code && BlocksShaped(f) && StoresOk(f) && t in f.code && code[t] == [NewPhi(Null, t)] + f.code[t]
      requires ScanInv(f, bs, t, 0, vals, valBbMap)
      modifies `vals, `valBbMap
      ensures ScanInv(f, bs, t, |f.code[t]|, vals, valBbMap)
    {
      hide *;
      var list := code[t];
      BlankFacts(f, t, list);
      for i := 0 to |list|
        invariant ScanInv(f, bs, t, if i == 0 then 0 else i - 1, vals, valBbMap)
      {
        var k := list[i];
        ghost var j := i - 1;
        if i > 0 {
          ScanFacts(f, t, list, i);
        }
        if k.op.OpStore? {
          var ins := k.operands[1];
          if !ins.Global? && !ins.Gep? {
            ScanStore(f, bs, t, j, vals, valBbMap, ins);
            RecordedIs(f, bs, t, j, vals, valBbMap, ins);
            ghost var m := valBbMap;
            if ins !in valBbMap {
              valBbMap := valBbMap[ins := []];
              valBbMap := valBbMap[ins := valBbMap[ins] + [t]];
              vals := vals + [ins];
              assert valBbMap == m[ins := [] + [t]];
            } else if t !in valBbMap[ins] {
              valBbMap := valBbMap[ins := valBbMap[ins] + [t]];
            }
          } else {
            ScanSkip(f, bs, t, j, vals, valBbMap);
          }
        } else if i > 0 {
          ScanSkip(f, bs, t, j, vals, valBbMap);
        }
      }
    }

    /** The worklist for one variable: a phi in every block of the iterated frontier. */
    method PlaceVariable(g: Graph, frontier: map<Block, set<Block>>, v: Value,
                         ghost f: Function, ghost phiVars0: map<Block, set<Value>>)
      returns (ghost placed: seq<Block>, ghost phiVars: map<Block, set<Value>>)
      requires v in valBbMap && FrontierTable(g, frontier) && forall x :: x in valBbMap[v] ==> x in g.blocks
      requires forall b :: b in g.blocks ==> b in f.code
      requires PhisInserted(f, code, phiVars0) && PhisMapped(phiToVal, phiVars0)
      requires v != Null && forall b :: b in phiVars0 ==> v !in phiVars0[b]
      modifies `code, `phiToVal
      ensures PhisInserted(f, code, phiVars) && PhisMapped(phiToVal, phiVars)
      ensures PlacedAt(phiVars0, phiVars, v, placed) && Distinct(placed) && IsIDF(g, valBbMap[v], placed)
    {
      hide *;
      var placedAt: seq<Block> := [];
      var work := valBbMap[v];
      phiVars := phiVars0;
      ghost var cur := NULL;
      WorkStarts(g, frontier, work);
      PlacedNone(phiVars0, v);
      WorkGraph(g, frontier);
      while |work| > 0
        invariant g.Valid() && WorkInv(g, frontier, valBbMap[v], placedAt, work, cur, {})
        invariant PhisInserted(f, code, phiVars) && PhisMapped(phiToVal, phiVars)
            && PlacedAt(phiVars0, phiVars, v, placedAt)
        invariant |placedAt| <= |SetOf(g.blocks)|
        decreases |SetOf(g.blocks)| - |placedAt|, |work|
      {
        var x := work[|work| - 1];
        ghost var w0, f0 := |work|, |placedAt|;
        WorkPops(g, frontier, valBbMap[v], placedAt, work, cur);
        work := work[..|work| - 1];
        cur := x;
        FrontierDomain(g, frontier, x);
        var ys := frontier[x];
        while ys != {}
          invariant WorkInv(g, frontier, valBbMap[v], placedAt, work, cur, ys)
          invariant PhisInserted(f, code, phiVars) && PhisMapped(phiToVal, phiVars)
              && PlacedAt(phiVars0, phiVars, v, placedAt)
          invariant f0 <= |placedAt| <= |SetOf(g.blocks)|
          invariant |placedAt| == f0 ==> |work| < w0
          decreases |ys|
        {
          var y := Pick(ys);
          WorkFinds(g, frontier, valBbMap[v], placedAt, work, cur, ys, y);
          if y !in placedAt {
            PlaceOne(f, code, phiToVal, phiVars, phiVars0, v, placedAt, y);
            phiToVal := phiToVal[Phi(v, y) := v];
            code := code[y := [NewPhi(v, y)] + code[y]];
            phiVars := AddPhi(phiVars, y, v);
            WorkAdds(g, frontier, valBbMap[v], placedAt, work, cur, ys, y, if y in work then work else work + [y]);
            placedAt := placedAt + [y];
            if y !in work {
              work := work + [y];
            }
            WorkBound(g, frontier, valBbMap[v], placedAt, work, cur, ys - {y});
          } else {
            WorkSeen(g, frontier, valBbMap[v], placedAt, work, cur, ys, y);
          }
          ys := ys - {y};
        }
      }
      WorkEnds(g, frontier, valBbMap[v], placedAt, cur);
      FoundIDF(g, valBbMap[v], placedAt);
      placed := placedAt;
    }

    /** Phi insertion for one function whose code is f.code. */
    method GeneratePhi(g: Graph, frontier: map<Block, set<Block>>,
            ghost f: Function) returns (ghost phiVars: map<Block, set<Value>>)
      requires WellFormed(f) && f.g == g && code == f.code && FrontierTable(g, frontier) && PhiMapOk(phiToVal)
      modifies `code, `phiToVal, `vals, `valBbMap
      ensures PhisInserted(f, code, phiVars) && PhisMapped(phiToVal, phiVars) && PhisExact(f, phiVars)
    {
      hide *;
      VarClear();
      var bs := g.blocks;
      ScanStarts(f);
      for i := 0 to |bs|
        invariant ScanInv(f, bs[..i], NULL, 0, vals, valBbMap)
        invariant BlanksAdded(f, bs[..i], code) && phiToVal == old(phiToVal)
      {
        var t := bs[i];
        BlankNext(f, bs, i, code);
        code := code[t := [NewPhi(Null, t)] + code[t]];
        ScanNextBlock(f, bs[..i], t, vals, valBbMap);
        ScanBlock(t, f, bs[..i]);
        ScanBlockDone(f, bs, i, vals, valBbMap);
      }
      assert bs[..|bs|] == bs;
      ScanResult(f, vals, valBbMap);
      phiVars := map b | b in f.code :: {};
      BlanksOnly(f, code, phiVars, phiToVal);
      PlacedNothing(f, valBbMap, phiVars);
      ghost var vals0, m := vals, valBbMap;
      for i := 0 to |vals|
        invariant vals == vals0 && valBbMap == m
        invariant PhisInserted(f, code, phiVars) && PhisMapped(phiToVal, phiVars)
        invariant PlacedUpTo(f, valBbMap, vals[..i], phiVars)
      {
        var t := vals[i];
        ValFacts(f, vals, valBbMap, i, phiVars);
        if |valBbMap[t]| > 1 {
          ghost var placed;
          ghost var phiVars0 := phiVars;
          placed, phiVars := PlaceVariable(g, frontier, t, f, phiVars0);
          PlacedNext(f, vals, valBbMap, i, phiVars0, phiVars, placed);
        } else {
          PlacedSkip(f, vals, valBbMap, i, phiVars);
        }
      }
      assert vals[..|vals|] == vals;
      PlacedAll(f, vals, valBbMap, phiVars);
    }

    /** Every operand that is d becomes o; every other operand, and every
        instruction's name, opcode and place, stays. */
    method ReplaceAllUseWith(d: Value, o: Value)
      modifies `code
      ensures code.Keys == old(code).Keys
      ensures forall c :: c in code ==> |code[c]| == |old(code)[c]|
      ensures forall c, i :: c in code && 0 <= i < |code[c]| ==> UsesMoved(old(code)[c][i], code[c][i], d, o)
    {
      code := ReplaceUses(code, d, o);
    }

    /** Walk the instructions of b: push definitions, replace promoted loads,
        and collect the loads and stores to delete. */
    method RenameUses(b: Block, ghost p: Problem, ghost done: set<Block>) returns (del: seq<Value>)
      requires p.Valid() && b in p.f.g.blocks && Reachable(p.f.g, b)
      requires CodeInv(p, code, done) && SubtreeIs(p, code, b, Start(p, b).sub) && Clear(code, Loads(p, done))
      requires BlankAt(code, b)
      requires StackIs(stack, InEnv(p, b)) && PhisMapped(phiToVal, p.phiVars)
      modifies `code, `stack
      ensures CodeRenamed(p, b, End(p, b).sub, old(code), code) && Clear(code, Loads(p, done + {b}))
      ensures StackIs(stack, End(p, b).env) && BlankOnTop(stack, b)
      ensures UnreachedFollow(p, old(code), code)
      ensures b in p.f.code && b in old(code)
      ensures var list := PhisOf(old(code)[b]) + p.f.code[b]; Pushed(old(stack), stack, KeysUpTo(list, |list|))
      ensures del == CellIds(p.f.code[b], |p.f.code[b]|)
    {
      hide *;
      ProblemFacts(p, b);
      WalkedStarts(p, b, done, code);
      FollowSelf(p, code);
      WalkedNow(p, b, done, 0, code, code);
      ghost var code0, heads, n := code, PhisOf(code[b]), |p.f.code[b]|;
      ghost var list := heads + p.f.code[b];
      HeadsOfInv(p, code, done, b);
      PushedNone(stack);
      BlankStart(heads, b, stack);
      HeadsPlaced(p, b, heads, Null);
      WalkStarts(p, b, heads, list);
      del := [];
      ShownLength(p, b, heads, At(p, b, 0).sub, code[b]);
      for i := 0 to |code[b]|
        invariant b in code && |code[b]| == |list| && 0 <= Past(heads, i) <= n
        invariant Walked(p, b, done, Past(heads, i), code0, code) && UnreachedFollow(p, code0, code)
        invariant StackIs(stack, WalkEnv(p, b, heads, i)) && BlankPassed(heads, i, b, stack)
        invariant Pushed(old(stack), stack, KeysUpTo(list, i))
        invariant del == CellIds(p.f.code[b], Past(heads, i))
      {
        ghost var k0 := Past(heads, i);
        PastIs(heads, i);
        WalkedNow(p, b, done, k0, code0, code);
        KeysNext(list, i);
        var k := code[b][i];
        if i < |heads| {
          HeadShown(p, b, heads, At(p, b, k0).sub, code[b], i);
          HeadKey(p, b, heads, i);
          HeadMapped(p, b, heads, i, phiToVal);
          HeadPush(p, b, heads, i, stack);
          BlankNextHead(heads, i, b, stack);
          PushedOne(old(stack), stack, KeysUpTo(list, i), k.id.of, k.id);
        } else {
          CurrentInstr(p, b, k0, heads, code[b]);
          WalkEnvRest(p, b, heads, k0);
          WalkEnvRest(p, b, heads, k0 + 1);
          AtNext(p, b, k0);
          BodyKey(p, b, heads, i);
          BodyWalk(p, b, k0);
          BlankNextOther(heads, i, b, stack);
        }
        if k.IsPhi() {
          stack := Push(stack, PhiVal(phiToVal, k.id), k.id);
        } else if k.op.OpStore? {
          if !k.operands[1].Global? && !k.operands[1].Gep? {
            StackPush(stack, At(p, b, k0).env, k.operands[1], k.operands[0]);
            PushedOne(old(stack), stack, KeysUpTo(list, i), k.operands[1], k.operands[0]);
            BlankNextStore(heads, i, b, stack, k.operands[1], k.operands[0]);
            stack := Push(stack, k.operands[1], k.operands[0]);
            del := del + [k.id];
          }
          WalkedSkip(p, b, done, k0, code0, code);
        } else if k.op.OpLoad? {
          StackKeys(stack, At(p, b, k0).env, k.operands[0]);
          if k.operands[0] in stack {
            WalkedLoad(p, b, done, k0, code0, code);
            StackTop(stack, At(p, b, k0).env, k.operands[0]);
            var top := stack[k.operands[0]][|stack[k.operands[0]]| - 1];
            ghost var before := code;
            ReplaceAllUseWith(k.id, top);
            MovedIsReplaced(before, code, k.id, top);
            FollowReplace(p, b, k0, before);
            FollowThen(p, code0, before, code);
            del := del + [k.id];
          } else {
            LoadHasStack(p, b, k0, stack);
            WalkedSkip(p, b, done, k0, code0, code);
          }
        } else {
          WalkedSkip(p, b, done, k0, code0, code);
        }
        WalkedNow(p, b, done, Past(heads, i + 1), code0, code);
        ShownLength(p, b, heads, At(p, b, Past(heads, i + 1)).sub, code[b]);
      }
      WalkEnvRest(p, b, heads, n);
      BlankAtIs(old(code), b);
      BlankEnd(heads, |list|, b, stack);
      EndIsAt(p, b);
      WalkedEnds(p, b, done, code0, code);
    }

    /** Give every phi of the successors of b its operand pair for b, one for each edge. */
    method FeedSuccessors(b: Block, g: Graph, ghost p: Problem, ghost done: set<Block>)
      requires p.Valid() && p.f.g == g && b in g.blocks && Reachable(g, b) && b !in done
      requires CodeInv(p, code, done) && RestHasNoPhis(p, code) && Clear(code, Loads(p, done + {b}))
      requires StackIs(stack, End(p, b).env) && PhisMapped(phiToVal, p.phiVars)
      requires Counted(p, code, done) && BlankOnTop(stack, b)
      modifies `code
      ensures code.Keys == old(code).Keys
      ensures Counted(p, code, done + {b})
      ensures CodeInv(p, code, done + {b}) && RestsKept(p, old(code), code) && HeadsKept(p, old(code), code)
      ensures Clear(code, Loads(p, done + {b})) && UnreachedFollow(p, old(code), code)
    {
      hide *;
      ProblemFacts(p, b);
      SuccDomain(g, b);
      FollowSelf(p, code);
      FeedStarts(p, b, done, code);
      CountStart(p, code, done, b);
      var ss := g.succ[b];
      for i := 0 to |ss|
        invariant FeedState(p, b, done, ss[..i], old(code), code)
        invariant Counting(p, code, done, b, ss[..i]) && UnreachedFollow(p, old(code), code)
      {
        var next := ss[i];
        assert ss[..i + 1] == ss[..i] + [next];
        FeedNext(p, b, done, ss[..i], next, old(code), code, stack, phiToVal);
        CountNext(p, b, done, ss[..i], next, old(code), code, stack, phiToVal);
        ghost var list, before := code[next], code;
        FedNothing(stack, phiToVal, b, list);
        for j := 0 to |code[next]|
          invariant next in code && |code[next]| == |list|
          invariant code == before[next := FedUpTo(stack, phiToVal, b, list, j)]
        {
          var inst := code[next][j];
          FedUpToNext(stack, phiToVal, b, list, j);
          if inst.IsPhi() {
            var v := PhiVal(phiToVal, inst.id);
            if v in stack && |stack[v]| > 0 {
              code := code[next := code[next][j := inst.(operands := inst.operands + [stack[v][|stack[v]| - 1],
                  Label(b)])]];
            }
          }
        }
        FedAll(stack, phiToVal, b, list);
        SuccReachable(g, b, next);
        FollowElsewhere(p, before, next, code[next]);
        FollowThen(p, old(code), before, code);
      }
      assert ss[..|ss|] == ss;
      FeedStateKeys(p, b, done, ss, old(code), code);
      FeedEnds(p, b, done, old(code), code);
      CountEnd(p, code, done, b);
    }

    /** Pop what the walk of b pushed. */
    method PopStacks(b: Block, ghost stack0: map<Value, seq<Value>>)
      requires b in code && Poppable(phiToVal, code[b])
      requires Pushed(stack0, stack, KeysUpTo(code[b], |code[b]|))
      requires forall v :: v in stack ==> v == Null || v.Alloca?
      modifies `stack
      ensures SameStacks(stack0, stack)
      ensures forall v :: v in stack ==> v == Null || v.Alloca?
    {
      hide *;
      var list := code[b];
      ghost var all := KeysUpTo(list, |list|);
      KeysEnds(list);
      for i := 0 to |list|
        invariant Pushed(stack0, stack, all - KeysUpTo(list, i))
        invariant forall v :: v in stack ==> v == Null || v.Alloca?
      {
        var inst := list[i];
        KeysLeft(list, i);
        PopFacts(phiToVal, list, i);
        if inst.op.OpStore? {
          if !inst.operands[1].Global? && !inst.operands[1].Gep? {
            PoppedOne(stack0, stack, all - KeysUpTo(list, i), inst.operands[1]);
            stack := stack[inst.operands[1] := stack[inst.operands[1]][..|stack[inst.operands[1]]| - 1]];
          }
        } else if inst.IsPhi() {
          var v := PhiVal(phiToVal, inst.id);
          PoppedOne(stack0, stack, all - KeysUpTo(list, i), v);
          stack := stack[v := stack[v][..|stack[v]| - 1]];
        }
      }
      PoppedAll(stack0, stack);
    }

    method EraseInstrs(b: Block, del: seq<Value>)
      requires b in code
      modifies `code
      ensures code == old(code)[b := EraseAll(old(code)[b], SetOf(del))]
    {
      EraseNothing(code[b], {});
      assert SetOf(del[..0]) == {};
      for i := 0 to |del|
        invariant b in code && code == old(code)[b := EraseAll(old(code)[b], SetOf(del[..i]))]
      {
        assert del[..i + 1] == del[..i] + [del[i]];
        assert SetOf(del[..i + 1]) == SetOf(del[..i]) + {del[i]};
        EraseOneMore(old(code)[b], SetOf(del[..i]), del[i]);
        code := code[b := Erase(code[b], del[i])];
      }
      assert del[..|del|] == del;
    }

    /** Renaming of block b and everything it dominates. The stacks come back
        as they were. */
    method Rename(b: Block, g: Graph, treeSucc: map<Block, set<Block>>, ghost p: Problem, ghost done: set<Block>)
      requires p.Valid() && p.f.g == g && b in g.blocks && Reachable(g, b) && TreeOk(p, treeSucc)
      requires ReadyFor(p, b, done, code) && PhisMapped(phiToVal, p.phiVars)
      requires Counted(p, code, done)
      requires b != g.Entry() ==> StackIs(stack, InEnv(p, b))
      modifies `code, `stack
      ensures Renamed(p, b, done, old(code), code) && RestHasNoPhis(p, code)
      ensures Counted(p, code, done + Subtree(g, b)) && UnreachedFollow(p, old(code), code)
      ensures StackIs(stack, InEnv(p, b)) && (b != g.Entry() ==> SameStacks(old(stack), stack))
      decreases |SetOf(g.blocks)| - Depth(g, b)
    {
      hide *;
      ProblemFacts(p, b);
      ReadyFacts(p, b, done, code);
      if b == g.Entry() {
        stack := map[];
        EmptyStacks(p, b);
      }
      ghost var code0, stack0 := code, stack;
      ReadyHasBlock(p, b, done, code);
      CountedBlank(p, code, done, b);
      var del := RenameUses(b, p, done);
      UsesKeepInv(p, b, done, code0, code);
      UsesKeepCount(p, b, End(p, b).sub, code0, code, done);
      ghost var code1, heads0 := code, PhisOf(code0[b]);
      FeedSuccessors(b, g, p, done);
      RestsKeepNoPhis(p, code1, code);
      FollowThen(p, code0, code1, code);
      ChildStarts(p, b, done, code0, code1, code);
      NoChildCounted(p, b, code, done);
      ghost var stack1 := stack;
      ghost var seen: set<Block> := {};
      TreeDomain(p, b, treeSucc);
      var todo := treeSucc[b];
      SameStacksRefl(stack);
      while todo != {}
        invariant seen <= treeSucc[b] && todo == treeSucc[b] - seen
        invariant ChildState(p, b, done, BelowChildren(g, seen), code0, code) && RestHasNoPhis(p, code)
        invariant Counted(p, code, done + {b} + BelowChildren(g, seen)) && UnreachedFollow(p, code0, code)
        invariant StackIs(stack, End(p, b).env) && SameStacks(stack1, stack)
        decreases |todo|
      {
        var child := Pick(todo);
        ChildReady(p, b, done, seen, child, code0, code, treeSucc);
        ChildFacts(p, b, child, treeSucc);
        DepthLimit(g, child);
        ghost var code2, stack2 := code, stack;
        Rename(child, g, treeSucc, p, done + {b} + BelowChildren(g, seen));
        ChildNext(p, b, done, seen, child, code0, code2, code);
        ChildCounted(p, b, code, done, seen, child);
        FollowThen(p, code0, code2, code);
        SameStacksTrans(stack1, stack2, stack);
        seen := seen + {child};
        todo := todo - {child};
      }
      assert seen == treeSucc[b];
      ChildrenCover(p, b, treeSucc);
      AllBelowCounted(p, b, code, done, BelowChildren(g, seen));
      BlockAfterChildren(p, b, done, BelowChildren(g, seen), code0, code);
      PopReady(p, b, heads0, PhisOf(code[b]), phiToVal);
      PushedSame(stack0, stack1, stack, KeysUpTo(code[b], |code[b]|));
      StackDomain(stack, End(p, b).env);
      PopStacks(b, stack0);
      StackIsSame(stack0, stack, InEnv(p, b));
      EraseBlock(p, b, PhisOf(code[b]), code[b], SetOf(del));
      RenameEnds(p, b, done, BelowChildren(g, seen), code0, code, EraseAll(code[b], SetOf(del)));
      EraseKeepsCount(p, b, code, EraseAll(code[b], SetOf(del)), done + Subtree(g, b));
      ghost var code3 := code;
      FollowElsewhere(p, code3, b, EraseAll(code[b], SetOf(del)));
      EraseInstrs(b, del);
      FollowThen(p, code0, code3, code);
    }

    /** Phi insertion and renaming of one function, given its dominator tables.
        Every promoted load then finds a definition, so no stack is read when empty. */
    method RunOn(f: Function, idom: map<Block, Block>, frontier: map<Block, set<Block>>,
            treeSucc: map<Block, set<Block>>)
      returns (ghost p: Problem)
      requires WellFormed(f) && LoadsDefined(f, MultiVars(f)) && code == f.code && PhiMapOk(phiToVal)
      requires Tables(f.g, idom, frontier, treeSucc)
      modifies this
      ensures p.f == f && p.Valid() && PhisExact(f, p.phiVars)
      ensures code.Keys == f.code.Keys && Rewritten(p, code) && Settled(p, code) && PairsExact(p, code)
      ensures UnreachedKept(p, code) && PhiMapOk(phiToVal)
    {
      hide *;
      WellFormedGraph(f);
      TablesGiveFrontiers(f.g, idom, frontier, treeSucc);
      ghost var phiVars := GeneratePhi(f.g, frontier, f);
      MappedIsOk(phiToVal, phiVars);
      p := Problem(f, idom, MultiVars(f), phiVars);
      ProblemIsValid(f, p, frontier, treeSucc);
      TreeIsOk(p, frontier, treeSucc);
      InsertedReady(p, code);
      InsertedCounted(p, code);
      ghost var code0 := code;
      Rename(f.g.Entry(), f.g, treeSucc, p, {});
      RenamedRewritten(p, code0, code);
      RenamedSettled(p, code0, code);
      RenamedCounted(p, code);
      RenamedKept(p, code0, code);
    }

    /** The pass: dominators of the whole module first, then one function after
        the other; functions without blocks stay as they are. */
    method Run(fs: seq<Function>) returns (out: seq<map<Block, seq<Instr>>>, ghost ps: seq<Problem>)
      requires forall i ::
          0 <= i < |fs| && |fs[i].g.blocks| > 0 ==> WellFormed(fs[i]) && LoadsDefined(fs[i], MultiVars(fs[i]))
      requires forall i, j, b :: 0 <= i < j < |fs| && b in fs[i].g.blocks ==> b !in fs[j].g.blocks
      requires phiToVal == map[]
      modifies this
      ensures |out| == |ps| == |fs|
      ensures forall i :: 0 <= i < |fs| ==> PromotedTo(fs[i], out[i], ps[i])
    {
      hide Tables, WellFormed, LoadsDefined, MultiVars, Rewritten, PhisExact, Problem.Valid, PromotedTo,
          PredsReachable, Graph.Valid;
      var dominators := new D.Dominators();
      var graphs := seq(|fs|, i requires 0 <= i < |fs| => fs[i].g);
      forall i | 0 <= i < |fs| && |fs[i].g.blocks| > 0 ensures graphs[i].Valid() && PredsReachable(graphs[i]) {
        WellFormedGraph(fs[i]);
      }
      dominators.Run(graphs);
      var idom, frontier, treeSucc := dominators.idom, dominators.domFrontier, dominators.domTreeSucc;
      assert forall i ::
          0 <= i < |fs| && |fs[i].g.blocks| > 0 ==> graphs[i] == fs[i].g && Tables(graphs[i], idom, frontier, treeSucc);
      out, ps := [], [];
      for i := 0 to |fs|
        invariant |out| == |ps| == i && PhiMapOk(phiToVal)
        invariant forall j :: 0 <= j < i ==> PromotedTo(fs[j], out[j], ps[j])
      {
        var f := fs[i];
        if |f.g.blocks| >= 1 {
          code := f.code;
          ghost var p := RunOn(f, idom, frontier, treeSucc);
          DonePromoted(f, code, p);
          out, ps := out + [code], ps + [p];
        } else {
          ghost var p := Problem(f, map[], {}, map[]);
          DeclarationKept(f, p);
          out, ps := out + [f.code], ps + [p];
        }
      }
    }
  }

  /** In no block, reachable or not, does an instruction use a load that was deleted;
      only blank phis use blank phis. */
  ghost predicate Settled(p: Problem, code: map<Block, seq<Instr>>)
    requires p.Analysed()
  {
    forall c, i :: c in code && 0 <= i < |code[c]| ==> SettledInstr(p, code[c][i])
  }

  ghost predicate SettledInstr(p: Problem, ins: Instr)
    requires p.Analysed()
  {
    && (ins.id.IsBlank() ==> ins.IsPhi())
    && (forall o :: o in ins.operands ==> !Promoted(p, o))
    && (forall o :: o in ins.operands && o.IsBlank() ==> ins.id.IsBlank())
  }

  /** When everything below the entry is renamed, no deleted load is left in use. */
  lemma RenamedSettled(p: Problem, code0: map<Block, seq<Instr>>, code: map<Block, seq<Instr>>)
    requires p.Valid() && Renamed(p, p.f.g.Entry(), {}, code0, code)
    ensures p.Analysed() && Settled(p, code)
  {
    EntryReachableIn(p);
    hide Problem.Valid, Problem.Analysed, Promoted, Loads, CodeInv, Reachable, Dom;
    var gone := Loads(p, {} + Subtree(p.f.g, p.f.g.Entry()));
    forall x | Promoted(p, x) ensures x in gone { PromotedGone(p, x); }
    forall c, i | c in code && 0 <= i < |code[c]| ensures SettledInstr(p, code[c][i]) {
      assert ClearList(code[c], gone);
      assert ClearInstr(code[c][i], gone);
    }
  }

  lemma PromotedGone(p: Problem, x: Value)
    requires p.Valid() && p.Analysed() && Promoted(p, x)
    ensures x in Loads(p, {} + Subtree(p.f.g, p.f.g.Entry()))
  {
    ShapedCode(p);
    hide Problem.Valid, Problem.Analysed, Dom;
    var c, j :| DefinedAt(p.f, x, c, j) && p.f.code[c][j].IsCellLoad() && Reachable(p.f.g, c);
    hide Reachable;
    EntryDominates(p.f.g, c);
    assert c in Subtree(p.f.g, p.f.g.Entry());
    assert p.f.code[c][j].id == x;
  }

  lemma ShapedCode(p: Problem)
    requires p.Valid()
    ensures p.f.g.Valid() && forall c :: c in p.f.code ==> c in p.f.g.blocks
  {
  }

  /** The instruction after d has been replaced by o. */
  ghost predicate UsesMoved(before: Instr, after: Instr, d: Value, o: Value) {
    && after.id == before.id && after.op == before.op && |after.operands| == |before.operands|
    && forall k :: 0 <= k < |before.operands| ==>
        after.operands[k] == (if before.operands[k] == d then o else before.operands[k])
  }

  lemma MovedIsReplaced(before: map<Block, seq<Instr>>, after: map<Block, seq<Instr>>, d: Value, o: Value)
    requires after.Keys == before.Keys && forall c :: c in after ==> |after[c]| == |before[c]|
    requires forall c, i :: c in after && 0 <= i < |after[c]| ==> UsesMoved(before[c][i], after[c][i], d, o)
    ensures after == ReplaceUses(before, d, o)
  {
    forall c | c in after ensures after[c] == SubList(map[d := o], before[c]) {
      forall i | 0 <= i < |after[c]| ensures after[c][i] == SubInstr(map[d := o], before[c][i]) {
        assert UsesMoved(before[c][i], after[c][i], d, o);
        assert after[c][i].operands == SubOperands(map[d := o], before[c][i].operands);
      }
    }
  }

  /** What the pass makes of one function: a declaration stays, a definition is
      the rewritten function with its phis placed exactly. */
  ghost predicate PromotedTo(f: Function, code: map<Block, seq<Instr>>, p: Problem) {
    if |f.g.blocks| == 0 then code == f.code
    else
      && p.f == f && p.Valid() && PhisExact(f, p.phiVars)
      && code.Keys == f.code.Keys && Rewritten(p, code) && Settled(p, code) && PairsExact(p, code)
      && UnreachedKept(p, code)
  }

  lemma PromotedGives(f: Function, code: map<Block, seq<Instr>>, p: Problem)
    requires |f.g.blocks| > 0 && PromotedTo(f, code, p)
    ensures p.f == f && p.Valid() && p.Analysed() && Rewritten(p, code) && Settled(p, code)
  {
  }

  lemma DonePromoted(f: Function, code: map<Block, seq<Instr>>, p: Problem)
    requires p.f == f && p.Valid() && PhisExact(f, p.phiVars) && code.Keys == f.code.Keys && |f.g.blocks| > 0
    requires Rewritten(p, code) && Settled(p, code) && PairsExact(p, code) && UnreachedKept(p, code)
    ensures PromotedTo(f, code, p)
  {
  }

  lemma DeclarationKept(f: Function, p: Problem)
    requires |f.g.blocks| == 0
    ensures PromotedTo(f, f.code, p)
  {
  }

  lemma MappedIsOk(m: map<Value, Value>, phiVars: map<Block, set<Value>>)
    requires PhisMapped(m, phiVars)
    ensures PhiMapOk(m)
  {
  }

  /** Every function of the module runs after the pass as before it, unless it got
      stuck; if every promoted load follows a store on every path, even then. */
  lemma ModulePreserved<V, W>(fs: seq<Function>, out: seq<map<Block, seq<Instr>>>, ps: seq<Problem>, i: nat,
          sem: Sem<V, W>, world: W, fuel: nat)
    requires |out| == |ps| == |fs| && i < |fs| && |fs[i].g.blocks| > 0
    requires forall j :: 0 <= j < |fs| ==> PromotedTo(fs[j], out[j], ps[j])
    ensures (fs[i].g.Valid() && DefinitelyAssigned(fs[i])) || !Exec.Run(sem, fs[i], world, fuel).Stuck? ==>
              Exec.Run(sem, Function(fs[i].g, out[i]), world, fuel) == Exec.Run(sem, fs[i], world, fuel)
  {
    hide Rewritten, Problem.Analysed, WellFormed, LoadsDefined, Problem.PhisPlaced, DefinitelyAssigned, PhisExact,
        Exec.Run;
    assert PromotedTo(fs[i], out[i], ps[i]);
    PromotionPreservesRuns(ps[i], out[i], sem, world, fuel);
  }

  // ---------- the pass as a whole ----------

  lemma WellFormedGraph(f: Function)
    requires WellFormed(f)
    ensures f.g.Valid() && PredsReachable(f.g) && |f.g.blocks| > 0 && f.g.pre[f.g.Entry()] == []
  {
  }

  lemma MultiIsMulti(f: Function, v: Value)
    ensures v in MultiVars(f) <==> IsMulti(f, v)
  {
    if IsMulti(f, v) {
      assert StoreBlocks(f, v) != {};
      var c :| c in StoreBlocks(f, v);
      var j :| 0 <= j < |f.code[c]| && f.code[c][j].IsCellStore() && f.code[c][j].operands[1] == v;
      assert v in StoreTargets(f);
    }
  }

  lemma TwoStores(f: Function, b: Block, c: Block, v: Value)
    requires StoresTo(f, b, v) && StoresTo(f, c, v) && b != c
    ensures IsMulti(f, v)
  {
    assert {b, c} <= StoreBlocks(f, v);
    SubsetSize({b, c}, StoreBlocks(f, v));
  }

  lemma ChainArrives(g: Graph, s: set<Block>, y: Block)
    requires g.Valid() && InIDF(g, s, y)
    ensures exists x :: InFrontier(g, x, y)
  {
    var xs :| FrontierChain(g, s, xs, y);
    var k := |xs| - 2;
    assert InFrontier(g, xs[k], xs[k + 1]);
  }

  lemma NoPhiAtEntry(f: Function, phiVars: map<Block, set<Value>>, v: Value)
    requires WellFormed(f) && PhisExact(f, phiVars) && f.g.Entry() in phiVars
    ensures v !in phiVars[f.g.Entry()]
  {
    var e := f.g.Entry();
    EntryReachable(f.g);
    assert forall x :: !InFrontier(f.g, x, e);
    if v in phiVars[e] {
      ChainArrives(f.g, StoreBlocks(f, v), e);
    }
  }

  lemma PhisArePlaced(f: Function, p: Problem)
    requires WellFormed(f) && PhisExact(f, p.phiVars) && p.f == f && p.multi == MultiVars(f)
    ensures p.PhisPlaced()
  {
    hide Reachable, InFrontier, InIDF, UsesOk, IdsOk, StoresOk;
    forall b, c, v | StoresTo(f, b, v) && StoresTo(f, c, v) && b != c
      ensures v in p.multi
    {
      TwoStores(f, b, c, v);
      MultiIsMulti(f, v);
    }
    forall b, v | b in p.phiVars && v in p.phiVars[b]
      ensures v in p.multi && v.Alloca?
    {
      MultiIsMulti(f, v);
    }
    var e := f.g.Entry();
    EntryInBlocks(f.g);
    assert e in p.phiVars.Keys;
    forall v
      ensures v !in p.phiVars[e]
    {
      NoPhiAtEntry(f, p.phiVars, v);
    }
    forall x, y, v | x in p.phiVars && y in p.phiVars && v in p.multi && Reachable(f.g, x) && Reachable(f.g, y) &&
                     InFrontier(f.g, x, y) && (StoresTo(f, x, v) || v in p.phiVars[x])
      ensures v in p.phiVars[y]
    {
      PhiFollows(f, p.phiVars, x, y, v);
    }
  }

  lemma PhiFollows(f: Function, phiVars: map<Block, set<Value>>, x: Block, y: Block, v: Value)
    requires f.g.Valid() && PhisExact(f, phiVars) && x in phiVars && y in phiVars && v in MultiVars(f)
    requires Reachable(f.g, x) && Reachable(f.g, y) && InFrontier(f.g, x, y) && (StoresTo(f, x, v) || v in phiVars[x])
    ensures v in phiVars[y]
  {
    MultiIsMulti(f, v);
    if StoresTo(f, x, v) {
      assert x in StoreBlocks(f, v);
    }
    IDFStep(f.g, StoreBlocks(f, v), x, y);
  }

  lemma ProblemIsValid(f: Function, p: Problem, frontier: map<Block, set<Block>>, treeSucc: map<Block, set<Block>>)
    requires WellFormed(f) && LoadsDefined(f, MultiVars(f)) && Tables(f.g, p.idom, frontier, treeSucc)
    requires PhisExact(f, p.phiVars) && p.f == f && p.multi == MultiVars(f)
    ensures p.Valid()
  {
    PhisArePlaced(f, p);
    ProblemIsAnalysed(f, p, frontier, treeSucc);
    hide *;
    ValidIntro(p);
  }

  lemma ProblemIsAnalysed(f: Function, p: Problem, frontier: map<Block, set<Block>>, treeSucc: map<Block, set<Block>>)
    requires WellFormed(f) && Tables(f.g, p.idom, frontier, treeSucc) && PhisExact(f, p.phiVars) && p.f == f
    ensures p.Analysed()
  {
    forall b | b in f.g.blocks
      ensures b in f.code && b in p.phiVars
    {
      assert b in f.code.Keys;
      assert b in p.phiVars.Keys;
    }
  }

  lemma ValidIntro(p: Problem)
    requires p.Analysed() && WellFormed(p.f) && LoadsDefined(p.f, p.multi) && p.PhisPlaced()
    ensures p.Valid()
  {
  }

  lemma TreeIsOk(p: Problem, frontier: map<Block, set<Block>>, treeSucc: map<Block, set<Block>>)
    requires p.Valid() && Tables(p.f.g, p.idom, frontier, treeSucc)
    ensures TreeOk(p, treeSucc)
  {
    hide *;
    EntryReachableIn(p);
    forall x, c | x in p.f.g.blocks && Reachable(p.f.g, x)
      ensures x in treeSucc
      ensures c in treeSucc[x] <==> c in p.f.g.blocks && Reachable(p.f.g, c) && c != p.f.g.Entry() && p.idom[c] == x
    {
      TreeEdge(p, frontier, treeSucc, x, c);
    }
    TreeOkIntro(p, treeSucc);
  }

  lemma TreeOkIntro(p: Problem, treeSucc: map<Block, set<Block>>)
    requires p.Analysed()
    requires forall x :: x in p.f.g.blocks && Reachable(p.f.g, x) ==> x in treeSucc
    requires forall x, c :: x in p.f.g.blocks && Reachable(p.f.g, x) ==>
               (c in treeSucc[x] <==> c in p.f.g.blocks && Reachable(p.f.g, c) && c != p.f.g.Entry() && p.idom[c] == x)
    ensures TreeOk(p, treeSucc)
  {
  }

  lemma TreeEdge(p: Problem, frontier: map<Block, set<Block>>, treeSucc: map<Block, set<Block>>, x: Block, c: Block)
    requires p.Analysed() && Tables(p.f.g, p.idom, frontier, treeSucc) && x in p.f.g.blocks && Reachable(p.f.g, x)
    ensures x in treeSucc
    ensures c in treeSucc[x] <==> c in p.f.g.blocks && Reachable(p.f.g, c) && c != p.f.g.Entry() && p.idom[c] == x
  {
    hide Reachable, Dom;
    assert c in treeSucc[x] <==> c in p.f.g.blocks && c != x && p.idom[c] == x;
    if c in p.f.g.blocks && Reachable(p.f.g, c) && c != p.f.g.Entry() {
      assert IDom(p.f.g, p.idom[c], c);
    }
  }

  lemma SubListNothing(list: seq<Instr>)
    ensures SubList(map[], list) == list
  {
    forall i | 0 <= i < |list|
      ensures SubInstr(map[], list[i]) == list[i]
    {
      assert SubOperands(map[], list[i].operands) == list[i].operands;
    }
  }

  lemma FreshHeads(p: Problem, c: Block, list: seq<Instr>)
    requires p.Valid() && c in p.f.g.blocks && Reachable(p.f.g, c) && c in p.f.code
        && HeadsOk(p.f, c, list, p.phiVars[c])
    ensures HeadsInv(p, c, PhisOf(list), {}) && RestOf(list) == p.f.code[c]
  {
    EdgeVars(p, c);
    hide Problem.Valid, Problem.Analysed, Reachable;
    FreshShape(p, c, PhisOf(list));
  }

  /** Phis just inserted have no operands. */
  lemma FreshShape(p: Problem, c: Block, heads: seq<Instr>)
    requires p.Analysed() && c in p.f.g.blocks && HeadsFor(c, heads, p.phiVars[c])
    ensures HeadsInv(p, c, heads, {})
  {
    hide Problem.Analysed, Reachable, Incoming;
    forall i | 0 <= i < |heads|
      ensures heads[i].operands == [] && heads[i].IsPhi()
    {
      assert heads[i] == NewPhi(heads[i].id.of, c);
    }
  }

  lemma InsertedBlock(p: Problem, c: Block, list: seq<Instr>)
    requires p.Valid() && c in p.f.g.blocks && Reachable(p.f.g, c) && c in p.f.code
        && HeadsOk(p.f, c, list, p.phiVars[c])
    requires p.f.g.Entry() in p.f.g.blocks && Reachable(p.f.g, p.f.g.Entry())
    ensures BlockInv(p, c, list, {}) && RestOf(list) == p.f.code[c]
    ensures forall i :: 0 <= i < |RestOf(list)| ==> !RestOf(list)[i].IsPhi()
    ensures RestOf(list) == SubList(Start(p, p.f.g.Entry()).sub, p.f.code[c])
  {
    hide *;
    ProblemFacts(p, c);
    FreshHeads(p, c, list);
    BlockFacts(p, c);
    EntryStartsEmpty(p);
    SubListNothing(p.f.code[c]);
    AtStart(p, p.f.g.Entry());
    ScopedSub(p, c, p.f.g.Entry(), 0, p.f.code[c]);
    BlockInvIntro(p, c, list, {});
  }

  lemma BlockInvIntro(p: Problem, c: Block, list: seq<Instr>, done: set<Block>)
    requires p.Analysed() && c in p.f.g.blocks && HeadsInv(p, c, PhisOf(list), done) && Scoped(p, c, RestOf(list))
    ensures BlockInv(p, c, list, done)
  {
  }

  lemma EntryStartsEmpty(p: Problem)
    requires p.Valid() && p.f.g.Entry() in p.f.g.blocks && Reachable(p.f.g, p.f.g.Entry())
    ensures Start(p, p.f.g.Entry()).sub == map[]
  {
  }

  /** After phi insertion the whole function is ready to be renamed from its entry. */
  lemma InsertedReady(p: Problem, code: map<Block, seq<Instr>>)
    requires p.Valid() && PhisInserted(p.f, code, p.phiVars)
    ensures p.f.g.Entry() in p.f.g.blocks && Reachable(p.f.g, p.f.g.Entry())
    ensures ReadyFor(p, p.f.g.Entry(), {}, code) && code.Keys == p.f.code.Keys
  {
    hide Problem.Valid, Problem.Analysed, HeadsOk;
    EntryReachableIn(p);
    var e := p.f.g.Entry();
    forall c | c in p.f.g.blocks && Reachable(p.f.g, c)
      ensures c in code && BlockInv(p, c, code[c], {})
      ensures forall i :: 0 <= i < |RestOf(code[c])| ==> !RestOf(code[c])[i].IsPhi()
      ensures RestOf(code[c]) == SubList(Start(p, e).sub, p.f.code[c])
    {
      ProblemFacts(p, c);
      assert c in code.Keys;
      InsertedBlock(p, c, code[c]);
    }
    NothingGone(p, code);
    hide PhisInserted, BlockInv, Clear, Loads;
    forall c | c in p.f.g.blocks && Dom(p.f.g, e, c)
      ensures c in code && RestOf(code[c]) == SubList(Start(p, e).sub, p.f.code[c])
    {
      DomReachable(p.f.g, e, c);
    }
  }

  lemma RenamedKept(p: Problem, code0: map<Block, seq<Instr>>, code: map<Block, seq<Instr>>)
    requires p.Valid() && p.Analysed() && PhisInserted(p.f, code0, p.phiVars) && UnreachedFollow(p, code0, code)
    requires Settled(p, code)
    ensures UnreachedKept(p, code)
  {
    hide Problem.Valid, Problem.Analysed, Promoted, Meaning, Unvisited, ListFollows, HeadsFor;
    forall c | c in p.f.code && Unvisited(p, c)
      ensures c in code && |RestOf(code[c])| == |p.f.code[c]|
      ensures forall i :: 0 <= i < |p.f.code[c]| ==> InstrMeans(p, p.f.code[c][i], RestOf(code[c])[i])
    {
      assert c in code0.Keys && HeadsOk(p.f, c, code0[c], p.phiVars[c]);
      assert RestOf(code0[c]) == p.f.code[c];
      forall i, o | 0 <= i < |code[c]| && o in code[c][i].operands ensures !Promoted(p, o) {
        assert SettledInstr(p, code[c][i]);
      }
      KeptBlock(p, c, code0[c], code[c]);
    }
  }

  lemma BlankAtIs(code: map<Block, seq<Instr>>, b: Block)
    requires BlankAt(code, b)
    ensures b in code && HasHead(PhisOf(code[b]), Phi(Null, b))
  {
  }

  lemma ReadyHasBlock(p: Problem, b: Block, done: set<Block>, code: map<Block, seq<Instr>>)
    requires p.Analysed() && b in p.f.g.blocks && Reachable(p.f.g, b) && ReadyFor(p, b, done, code)
    ensures b in code
  {
    hide BlockInv;
  }

  /** Before the walk the phis have no operands. */
  lemma InsertedCounted(p: Problem, code: map<Block, seq<Instr>>)
    requires p.Valid() && PhisInserted(p.f, code, p.phiVars)
    ensures p.Analysed() && Counted(p, code, {})
  {
    assert p.Analysed();
    AnalysedGraph(p);
    hide Problem.Valid, Counted, Reachable;
    forall c, i | c in p.f.g.blocks && Reachable(p.f.g, c) && c in code && 0 <= i < |PhisOf(code[c])|
      ensures PhisOf(code[c])[i].operands == []
    {
      assert HeadsOk(p.f, c, code[c], p.phiVars[c]);
    }
    forall c | c in p.f.g.blocks && Reachable(p.f.g, c) && c in code ensures HasHead(PhisOf(code[c]), Phi(Null, c)) {
      assert HeadsOk(p.f, c, code[c], p.phiVars[c]);
    }
    hide Problem.Analysed;
    NothingCounted(p, code);
  }

  lemma RenamedCounted(p: Problem, code: map<Block, seq<Instr>>)
    requires p.Valid() && Counted(p, code, {} + Subtree(p.f.g, p.f.g.Entry()))
    ensures p.Analysed() && PairsExact(p, code)
  {
    EntryReachableIn(p);
    hide Problem.Valid, Problem.Analysed, Counted, PairsExact, Reachable;
    var done := {} + Subtree(p.f.g, p.f.g.Entry());
    forall q | q in p.f.g.blocks && Reachable(p.f.g, q) ensures q in done { EntryDominates(p.f.g, q); }
    CountedAll(p, code, done);
  }

  /** Before the walk nothing is gone, and nothing uses a phi. */
  lemma NothingGone(p: Problem, code: map<Block, seq<Instr>>)
    requires p.Valid() && PhisInserted(p.f, code, p.phiVars)
    ensures p.Analysed() && Clear(code, Loads(p, {}))
  {
    assert NoPhisYet(p.f) && IdsOk(p.f) && p.Analysed();
    hide Problem.Valid, Problem.Analysed, Reachable, WellFormed;
    forall c, i | c in code && 0 <= i < |code[c]| ensures ClearInstr(code[c][i], Loads(p, {})) {
      InsertedClear(p.f, c, code[c], p.phiVars[c], i);
    }
  }

  lemma InsertedClear(f: Function, c: Block, list: seq<Instr>, vars: set<Value>, i: int)
    requires c in f.code && NoPhisYet(f) && IdsOk(f) && HeadsOk(f, c, list, vars) && 0 <= i < |list|
    ensures ClearInstr(list[i], {})
  {
    var n := PhiCount(list);
    if i < n {
      assert list[..n][i] == list[i];
    } else {
      assert f.code[c][i - n] == list[n..][i - n] == list[i];
    }
  }

  lemma EntryReachableIn(p: Problem)
    requires p.Valid()
    ensures p.Analysed() && p.f.g.Valid() && p.f.g.Entry() in p.f.g.blocks && Reachable(p.f.g, p.f.g.Entry())
    ensures forall c :: c in p.f.g.blocks ==> c in p.f.code
  {
    EntryReachable(p.f.g);
  }

  lemma PhisAreOk(p: Problem, c: Block, heads: seq<Instr>, done: set<Block>)
    requires p.Analysed() && c in p.f.g.blocks && HeadsInv(p, c, heads, done)
    requires forall q :: q in p.f.g.blocks && Reachable(p.f.g, q) ==> q in done
    ensures PhisOk(p, c, heads)
  {
    forall i | 0 <= i < |heads|
      ensures PhiOk(p, c, heads[i])
    {
    }
    forall v | v in p.phiVars[c]
      ensures exists i :: 0 <= i < |heads| && heads[i].id == Phi(v, c)
    {
      assert HasHead(heads, Phi(v, c));
    }
  }

  lemma RenamedRewritten(p: Problem, code0: map<Block, seq<Instr>>, code: map<Block, seq<Instr>>)
    requires p.Valid() && Renamed(p, p.f.g.Entry(), {}, code0, code)
    ensures p.Analysed() && Rewritten(p, code) && code.Keys == code0.Keys
  {
    EntryReachableIn(p);
    hide Problem.Valid, Problem.Analysed;
    var e := p.f.g.Entry();
    var done := {} + Subtree(p.f.g, e);
    forall q | q in p.f.g.blocks && Reachable(p.f.g, q)
      ensures q in done
    {
      EntryDominates(p.f.g, q);
    }
    forall c | c in p.f.g.blocks && Reachable(p.f.g, c)
      ensures c in code && PhisOk(p, c, PhisOf(code[c])) && RestOf(code[c]) == NewRest(p, c)
    {
      EntryDominates(p.f.g, c);
      assert RenamedAt(p, e, code0, code, c);
      CodeInvAt(p, code, done, c);
      PhisAreOk(p, c, PhisOf(code[c]), done);
    }
  }

  // ---------- facts for feeding and recursion ----------

  function FedUpTo(stack: map<Value, seq<Value>>, m: map<Value, Value>, b: Block, list: seq<Instr>,
          j: int): (r: seq<Instr>)
    requires 0 <= j <= |list|
    ensures |r| == |list|
  {
    FeedList(stack, m, b, list[..j]) + list[j..]
  }

  lemma FedNothing(stack: map<Value, seq<Value>>, m: map<Value, Value>, b: Block, list: seq<Instr>)
    ensures FedUpTo(stack, m, b, list, 0) == list
  {
  }

  lemma FedAll(stack: map<Value, seq<Value>>, m: map<Value, Value>, b: Block, list: seq<Instr>)
    ensures FedUpTo(stack, m, b, list, |list|) == FeedList(stack, m, b, list)
  {
    assert list[..|list|] == list;
  }

  lemma FedUpToNext(stack: map<Value, seq<Value>>, m: map<Value, Value>, b: Block, list: seq<Instr>, j: int)
    requires 0 <= j < |list|
    ensures var l := FedUpTo(stack, m, b, list, j); var v := PhiVal(m, list[j].id);
            && l[j] == list[j]
            && FedUpTo(stack, m, b, list, j + 1) ==
               if list[j].IsPhi() && v in stack && |stack[v]| > 0
               then l[j := list[j].(operands := list[j].operands + [stack[v][|stack[v]| - 1], Label(b)])]
               else l
  {
    var l, l' := FedUpTo(stack, m, b, list, j), FedUpTo(stack, m, b, list, j + 1);
    forall i | 0 <= i < |list|
      ensures l'[i] == if i == j then FeedPhi(stack, m, b, list[j]) else l[i]
    {
    }
  }

  lemma KeysEnds(list: seq<Instr>)
    ensures KeysUpTo(list, |list|) - KeysUpTo(list, 0) == KeysUpTo(list, |list|)
    ensures KeysUpTo(list, |list|) - KeysUpTo(list, |list|) == multiset{}
  {
  }

  lemma PopFacts(m: map<Value, Value>, list: seq<Instr>, i: int)
    requires Poppable(m, list) && 0 <= i < |list|
    ensures var inst := list[i];
            && (inst.op.OpStore? ==> |inst.operands| == 2 && !inst.IsPhi())
            && (inst.op.OpStore? && !inst.operands[1].Global? && !inst.operands[1].Gep? ==>
                  inst.operands[1].Alloca? && KeyOf(inst) == Some(inst.operands[1]))
            && (inst.op.OpStore? && (inst.operands[1].Global? || inst.operands[1].Gep?) ==> KeyOf(inst) == None)
            && (inst.IsPhi() ==> KeyOf(inst) == Some(PhiVal(m, inst.id)))
            && (!inst.IsPhi() && !inst.op.OpStore? ==> KeyOf(inst) == None)
  {
  }

  lemma FeedStateKeys(p: Problem, b: Block, done: set<Block>, ss: seq<Block>, code0: map<Block, seq<Instr>>,
          code: map<Block, seq<Instr>>)
    requires p.Analysed() && FeedState(p, b, done, ss, code0, code)
    ensures code.Keys == code0.Keys
  {
  }

  lemma SuccDomain(g: Graph, b: Block)
    requires g.Valid() && b in g.blocks
    ensures b in g.succ
  {
  }

  lemma TreeDomain(p: Problem, b: Block, treeSucc: map<Block, set<Block>>)
    requires p.Analysed() && b in p.f.g.blocks && Reachable(p.f.g, b) && TreeOk(p, treeSucc)
    ensures b in treeSucc
  {
  }

  lemma SameStacksRefl(s: map<Value, seq<Value>>)
    ensures SameStacks(s, s)
  {
  }

  lemma SameStacksTrans(s: map<Value, seq<Value>>, t: map<Value, seq<Value>>, u: map<Value, seq<Value>>)
    requires SameStacks(s, t) && SameStacks(t, u)
    ensures SameStacks(s, u)
  {
    forall v
      ensures StackOf(u, v) == StackOf(s, v)
    {
      assert StackOf(t, v) == StackOf(s, v);
    }
  }

  lemma StackDomain(stack: map<Value, seq<Value>>, env: map<Value, Value>)
    requires StackIs(stack, env)
    ensures forall v :: v in stack ==> v == Null || v.Alloca?
  {
  }

  lemma DepthLimit(g: Graph, b: Block)
    requires g.Valid() && b in g.blocks
    ensures Depth(g, b) <= |SetOf(g.blocks)|
  {
    DepthBound(g, b);
    assert (set a | a in g.blocks) == SetOf(g.blocks);
  }

  // ---------- facts for the walk of one block ----------

  /** The original position that list position i stands for. */
  ghost function Past(heads: seq<Instr>, i: int): int {
    if i <= |heads| then 0 else i - |heads|
  }

  lemma PastIs(heads: seq<Instr>, i: int)
    ensures Past(heads, i) == if i <= |heads| then 0 else i - |heads|
    ensures Past(heads, i + 1) == if i < |heads| then 0 else i + 1 - |heads|
  {
  }

  lemma HeadsOfInv(p: Problem, code: map<Block, seq<Instr>>, done: set<Block>, b: Block)
    requires p.Analysed() && CodeInv(p, code, done) && b in p.f.g.blocks && Reachable(p.f.g, b)
    ensures b in code && HeadShape(p, b, PhisOf(code[b])) && Clean(p, PhisOf(code[b]))
  {
  }

  lemma WalkStarts(p: Problem, b: Block, heads: seq<Instr>, list: seq<Instr>)
    requires p.Analysed() && b in p.f.g.blocks && Reachable(p.f.g, b) && b in p.f.code && list == heads + p.f.code[b]
    ensures WalkEnv(p, b, heads, 0) == InEnv(p, b)
    ensures KeysUpTo(list, 0) == multiset{} && CellIds(p.f.code[b], 0) == []
    ensures |list| == |heads| + |p.f.code[b]| && Past(heads, 0) == 0 && Past(heads, |list|) == |p.f.code[b]|
  {
  }

  lemma ShownLength(p: Problem, b: Block, heads: seq<Instr>, sub: map<Value, Value>, list: seq<Instr>)
    requires b in p.f.code && Shown(p, b, heads, sub, list)
    ensures |list| == |heads| + |p.f.code[b]|
  {
  }

  lemma KeysNext(list: seq<Instr>, i: int)
    requires 0 <= i < |list|
    ensures KeyOf(list[i]).Some? ==> KeysUpTo(list, i + 1) == KeysUpTo(list, i) + multiset{KeyOf(list[i]).value}
    ensures KeyOf(list[i]).None? ==> KeysUpTo(list, i + 1) == KeysUpTo(list, i)
  {
  }

  lemma HeadShown(p: Problem, b: Block, heads: seq<Instr>, sub: map<Value, Value>, list: seq<Instr>, i: int)
    requires b in p.f.code && Shown(p, b, heads, sub, list) && 0 <= i < |heads|
    ensures i < |list| && list[i] == heads[i]
  {
  }

  lemma HeadPush(p: Problem, b: Block, heads: seq<Instr>, i: int, stack: map<Value, seq<Value>>)
    requires p.Valid() && b in p.f.g.blocks && Reachable(p.f.g, b) && HeadShape(p, b, heads) && 0 <= i < |heads|
    requires heads[i].id.Phi? && StackIs(stack, WalkEnv(p, b, heads, i))
    ensures StackIs(Push(stack, heads[i].id.of, heads[i].id), WalkEnv(p, b, heads, i + 1))
  {
    HeadKey(p, b, heads, i);
    var env := HeadEnv(InEnv(p, b), heads, i);
    hide StackIs;
    if heads[i].id.of == Null {
      StackPushBlank(stack, env, heads[i].id);
    } else {
      StackPush(stack, env, heads[i].id.of, heads[i].id);
    }
  }

  lemma BodyKey(p: Problem, b: Block, heads: seq<Instr>, i: int)
    requires p.Valid() && b in p.f.g.blocks && Reachable(p.f.g, b) && |heads| <= i < |heads| + |p.f.code[b]|
    ensures var list := heads + p.f.code[b]; var o := p.f.code[b][i - |heads|];
            i < |list| && KeyOf(list[i]) == if o.IsCellStore() then Some(o.operands[1]) else None
  {
    BlockFacts(p, b);
  }

  lemma BodyWalk(p: Problem, b: Block, k: int)
    requires p.Analysed() && b in p.f.g.blocks && Reachable(p.f.g, b) && 0 <= k < |p.f.code[b]|
    ensures var o := p.f.code[b][k];
            && CellIds(p.f.code[b], k + 1) == CellIds(p.f.code[b], k) + (if o.IsCellAccess() then [o.id] else [])
            && (o.IsCellAccess() <==> o.IsCellLoad() || o.IsCellStore()) && !(o.IsCellLoad() && o.IsCellStore())
            && (o.IsCellStore() ==> o.op.OpStore? && |o.operands| == 2 && o.operands[1].Alloca?)
            && (o.IsCellStore() ==>
                  At(p, b, k + 1).env == At(p, b, k).env[o.operands[1] := SubInstr(At(p, b, k).sub, o).operands[0]])
            && (!o.IsCellStore() ==> At(p, b, k + 1).env == At(p, b, k).env)
            && (o.IsCellLoad() ==> o.op.OpLoad? && |o.operands| == 1 && o.operands[0].Alloca?)
  {
  }

  lemma StackKeys(stack: map<Value, seq<Value>>, env: map<Value, Value>, v: Value)
    requires StackIs(stack, env) && v != Null
    ensures v in stack ==> v.Alloca?
  {
  }

  lemma StackTop(stack: map<Value, seq<Value>>, env: map<Value, Value>, v: Value)
    requires StackIs(stack, env) && v != Null && v in env
    ensures v in stack && |stack[v]| > 0 && stack[v][|stack[v]| - 1] == env[v]
  {
    assert StackOf(stack, v) != [];
  }

  lemma LoadHasStack(p: Problem, b: Block, k: int, stack: map<Value, seq<Value>>)
    requires p.Valid() && b in p.f.g.blocks && Reachable(p.f.g, b) && 0 <= k < |p.f.code[b]|
    requires StackIs(stack, At(p, b, k).env)
    ensures p.f.code[b][k].IsCellLoad() ==> p.f.code[b][k].operands[0] in stack
  {
    if p.f.code[b][k].IsCellLoad() {
      LoadsCovered(p, b, k);
      StackTop(stack, At(p, b, k).env, p.f.code[b][k].operands[0]);
    }
  }

  // ---------- phi insertion as a whole ----------

  /** One phi for v in a reachable block exactly when v is stored in several
      blocks and the block is in the iterated frontier of those. */
  ghost predicate PhisExact(f: Function, phiVars: map<Block, set<Value>>) {
    && f.g.Valid()
    && phiVars.Keys == f.code.Keys
    && (forall b, v :: b in phiVars && v in phiVars[b] ==> IsMulti(f, v) && v.Alloca?)
    && (forall b, v {:trigger InIDF(f.g, StoreBlocks(f, v), b)} {:trigger v in phiVars[b]} ::
          b in phiVars && Reachable(f.g, b) ==>
            (v in phiVars[b] <==> IsMulti(f, v) && InIDF(f.g, StoreBlocks(f, v), b)))
  }

  lemma BlankFacts(f: Function, t: Block, list: seq<Instr>)
    requires t in f.code && list == [NewPhi(Null, t)] + f.code[t]
    ensures |list| == |f.code[t]| + 1 && list[0].op == OpPhi
  {
  }

  lemma ScanFacts(f: Function, t: Block, list: seq<Instr>, i: int)
    requires BlocksShaped(f) && StoresOk(f) && t in f.code && list == [NewPhi(Null, t)] + f.code[t] && 0 < i < |list|
    ensures i - 1 < |f.code[t]| && list[i] == f.code[t][i - 1]
    ensures list[i].op.OpStore? ==> |list[i].operands| == 2
    ensures list[i].IsCellStore() <==> list[i].op.OpStore? && !list[i].operands[1].Global? && !list[i].operands[1].Gep?
  {
    assert list[i].Shaped();
  }

  lemma RecordedIs(f: Function, bs: seq<Block>, t: Block, j: int, vals: seq<Value>, m: map<Value, seq<Block>>, v: Value)
    requires ScanInv(f, bs, t, j, vals, m)
    ensures Recorded1(m, v, t) == (if v !in m then m[v := [] + [t]] else if t in m[v] then m else m[v := m[v] + [t]])
  {
    assert [] + [t] == [t];
  }

  /** The state after a blank phi has been put in front of each block of bs. */
  ghost predicate BlanksAdded(f: Function, bs: seq<Block>, code: map<Block, seq<Instr>>) {
    && code.Keys == f.code.Keys
    && forall c :: c in code ==> code[c] == (if c in bs then [NewPhi(Null, c)] else []) + f.code[c]
  }

  lemma ScanStarts(f: Function)
    requires WellFormed(f)
    ensures forall bs: seq<Block> :: bs == [] ==> ScanInv(f, bs, NULL, 0, [], map[]) && BlanksAdded(f, bs, f.code)
    ensures BlocksShaped(f) && StoresOk(f) && f.g.Valid()
  {
    forall bs: seq<Block>, c, v | bs == []
      ensures !SeenStore(f, bs, NULL, 0, c, v)
    {
    }
  }

  lemma BlankNext(f: Function, bs: seq<Block>, i: int, code: map<Block, seq<Instr>>)
    requires BlocksShaped(f) && bs == f.g.blocks && 0 <= i < |bs| && BlanksAdded(f, bs[..i], code)
    ensures bs[i] in code && bs[i] in f.code && code[bs[i]] == f.code[bs[i]]
    ensures BlanksAdded(f, bs[..i + 1], code[bs[i] := [NewPhi(Null, bs[i])] + code[bs[i]]])
  {
    var t := bs[i];
    assert bs[..i + 1] == bs[..i] + [t];
    assert t in bs && t in f.code && t in code.Keys;
    assert t !in bs[..i];
    assert [] + f.code[t] == f.code[t];
  }

  lemma ScanResult(f: Function, vals: seq<Value>, m: map<Value, seq<Block>>)
    requires BlocksShaped(f) && ScanInv(f, f.g.blocks, NULL, 0, vals, m)
    ensures ScanFinal(f, vals, m)
  {
    forall v | v in m
      ensures SetOf(m[v]) == StoreBlocks(f, v) && |m[v]| == |StoreBlocks(f, v)| && v.Alloca?
    {
      forall c
        ensures c in m[v] <==> c in StoreBlocks(f, v)
      {
        assert c in m[v] <==> SeenStore(f, f.g.blocks, NULL, 0, c, v);
      }
      DistinctSize(m[v]);
      assert m[v][0] in m[v];
      assert StoresTo(f, m[v][0], v);
    }
    forall v | StoreBlocks(f, v) != {}
      ensures v in m
    {
      var c :| c in StoreBlocks(f, v);
      assert SeenStore(f, f.g.blocks, NULL, 0, c, v);
    }
  }

  /** What scanning found: the variables in order, each with its storing blocks. */
  ghost predicate ScanFinal(f: Function, vals: seq<Value>, m: map<Value, seq<Block>>) {
    && Distinct(vals)
    && (forall v :: v in vals <==> v in m)
    && (forall v :: v in m ==> SetOf(m[v]) == StoreBlocks(f, v) && |m[v]| == |StoreBlocks(f, v)| && v.Alloca?)
    && (forall v :: StoreBlocks(f, v) != {} ==> v in m)
  }

  lemma {:induction false} DistinctSize<T>(xs: seq<T>)
    requires Distinct(xs)
    ensures |SetOf(xs)| == |xs|
  {
    if |xs| > 0 {
      var n := |xs| - 1;
      DistinctSize(xs[..n]);
      assert xs == xs[..n] + [xs[n]];
      assert SetOf(xs) == SetOf(xs[..n]) + {xs[n]};
      assert xs[n] !in SetOf(xs[..n]);
    } else {
      assert SetOf(xs) == {};
    }
  }

  lemma BlanksOnly(f: Function, code: map<Block, seq<Instr>>, phiVars: map<Block, set<Value>>, m: map<Value, Value>)
    requires BlocksShaped(f) && BlanksAdded(f, f.g.blocks, code) && PhiMapOk(m)
    requires phiVars == map b | b in f.code :: {}
    ensures PhisInserted(f, code, phiVars) && PhisMapped(m, phiVars)
  {
    hide BlocksShaped, HeadsOk, BlanksAdded;
    BlanksDomain(f, code);
    forall b | b in f.code
      ensures HeadsOk(f, b, code[b], phiVars[b])
    {
      BlanksAt(f, code, b);
      BlankHead(f, b);
    }
  }

  lemma BlanksDomain(f: Function, code: map<Block, seq<Instr>>)
    requires BlanksAdded(f, f.g.blocks, code)
    ensures code.Keys == f.code.Keys
  {
  }

  lemma BlanksAt(f: Function, code: map<Block, seq<Instr>>, b: Block)
    requires BlocksShaped(f) && BlanksAdded(f, f.g.blocks, code) && b in f.code
    ensures b in code && code[b] == [NewPhi(Null, b)] + f.code[b]
  {
    assert b in code.Keys;
  }

  lemma BlankHead(f: Function, b: Block)
    requires BlocksShaped(f) && b in f.code
    ensures HeadsOk(f, b, [NewPhi(Null, b)] + f.code[b], {})
  {
    HeadsStart(f, b);
  }

  /** The phis of the variables vs have been placed, and no others. */
  ghost predicate PlacedUpTo(f: Function, m: map<Value, seq<Block>>, vs: seq<Value>, phiVars: map<Block, set<Value>>) {
    && f.g.Valid()
    && (forall v :: v in vs ==> v in m)
    && phiVars.Keys == f.code.Keys
    && (forall b, v :: b in phiVars && v in phiVars[b] ==> v in vs && |m[v]| > 1)
    && (forall b, v :: b in phiVars && Reachable(f.g, b) && v in vs && |m[v]| > 1 ==>
          (v in phiVars[b] <==> InIDF(f.g, SetOf(m[v]), b)))
  }

  lemma PlacedNothing(f: Function, m: map<Value, seq<Block>>, phiVars: map<Block, set<Value>>)
    requires f.g.Valid() && phiVars == map b | b in f.code :: {}
    ensures forall vs: seq<Value> :: vs == [] ==> PlacedUpTo(f, m, vs, phiVars)
  {
  }

  lemma ValFacts(f: Function, vals: seq<Value>, m: map<Value, seq<Block>>, i: int, phiVars: map<Block, set<Value>>)
    requires ScanFinal(f, vals, m) && BlocksShaped(f) && 0 <= i < |vals| && PlacedUpTo(f, m, vals[..i], phiVars)
    ensures vals[i] in m && vals[i] != Null && (forall x :: x in m[vals[i]] ==> x in f.g.blocks)
    ensures forall b :: b in phiVars ==> vals[i] !in phiVars[b]
    ensures vals[i] !in vals[..i]
    ensures forall b :: b in f.g.blocks <==> b in f.code
  {
    assert vals[i] in vals;
    forall x | x in m[vals[i]]
      ensures x in f.g.blocks
    {
      assert x in SetOf(m[vals[i]]);
    }
    assert vals[i] !in vals[..i];
  }

  lemma PlacedNext(f: Function, vals: seq<Value>, m: map<Value, seq<Block>>, i: int,
                   phiVars0: map<Block, set<Value>>, phiVars: map<Block, set<Value>>, placed: seq<Block>)
    requires 0 <= i < |vals| && vals[i] in m && |m[vals[i]]| > 1 && vals[i] !in vals[..i]
    requires PlacedUpTo(f, m, vals[..i], phiVars0) && PlacedAt(phiVars0, phiVars, vals[i], placed)
    requires (forall b :: b in f.code ==> b in f.g.blocks) && IsIDF(f.g, m[vals[i]], placed)
    ensures PlacedUpTo(f, m, vals[..i + 1], phiVars)
  {
    hide InIDF, Reachable, Graph.Valid;
    var vs, t := vals[..i + 1], vals[i];
    assert forall v :: v in vs <==> v in vals[..i] || v == t by { assert vs == vals[..i] + [t]; }
    hide PlacedAt;
    forall b, v | b in phiVars
      ensures b in phiVars0 && (v in phiVars[b] <==> v in phiVars0[b] || (v == t && b in placed))
    {
      PlacedHere(phiVars0, phiVars, t, placed, b, v);
    }
    PlacedDomain(phiVars0, phiVars, t, placed);
  }

  lemma PlacedHere(phiVars0: map<Block, set<Value>>, phiVars: map<Block, set<Value>>, t: Value, placed: seq<Block>,
          b: Block, v: Value)
    requires PlacedAt(phiVars0, phiVars, t, placed) && b in phiVars
    ensures b in phiVars0 && (v in phiVars[b] <==> v in phiVars0[b] || (v == t && b in placed))
  {
    assert b in phiVars0.Keys;
  }

  lemma PlacedDomain(phiVars0: map<Block, set<Value>>, phiVars: map<Block, set<Value>>, t: Value, placed: seq<Block>)
    requires PlacedAt(phiVars0, phiVars, t, placed)
    ensures phiVars.Keys == phiVars0.Keys
  {
  }

  lemma PlacedSkip(f: Function, vals: seq<Value>, m: map<Value, seq<Block>>, i: int, phiVars: map<Block, set<Value>>)
    requires 0 <= i < |vals| && vals[i] in m && |m[vals[i]]| <= 1 && PlacedUpTo(f, m, vals[..i], phiVars)
    ensures PlacedUpTo(f, m, vals[..i + 1], phiVars)
  {
    assert vals[..i + 1] == vals[..i] + [vals[i]];
  }

  lemma PlacedAll(f: Function, vals: seq<Value>, m: map<Value, seq<Block>>, phiVars: map<Block, set<Value>>)
    requires ScanFinal(f, vals, m) && PlacedUpTo(f, m, vals, phiVars)
    ensures PhisExact(f, phiVars)
  {
    forall b, v | b in phiVars && Reachable(f.g, b)
      ensures v in phiVars[b] <==> IsMulti(f, v) && InIDF(f.g, StoreBlocks(f, v), b)
    {
      if StoreBlocks(f, v) == {} {
        assert |StoreBlocks(f, v)| == 0;
      }
    }
  }

  /** The next block of a set; the order of a pointer set is not specified. */
  method Pick<T>(s: set<T>) returns (b: T)
    requires s != {}
    ensures b in s
  {
    b :| b in s;
  }

  lemma PlacedNone(phiVars: map<Block, set<Value>>, v: Value)
    ensures PlacedAt(phiVars, phiVars, v, [])
  {
  }

  lemma WorkGraph(g: Graph, frontier: map<Block, set<Block>>)
    requires FrontierTable(g, frontier)
    ensures g.Valid()
  {
  }

  lemma FrontierDomain(g: Graph, frontier: map<Block, set<Block>>, x: Block)
    requires FrontierTable(g, frontier) && x in g.blocks
    ensures x in frontier
  {
  }

  lemma WorkBound(g: Graph, frontier: map<Block, set<Block>>, s: seq<Block>, f: seq<Block>, w: seq<Block>, cur: Block,
          pending: set<Block>)
    requires g.Valid() && WorkInv(g, frontier, s, f, w, cur, pending)
    ensures |f| <= |SetOf(g.blocks)|
  {
    assert forall x :: x in f ==> x in SetOf(g.blocks);
    DistinctBound(f, SetOf(g.blocks));
  }
}
