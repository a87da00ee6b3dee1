/** Dead code elimination: mark what critical instructions need, sweep the rest. */
module DeadCode {
  import opened Cfg
  import opened Ir
  import opened Program
  import opened Liveness
  import opened Preservation
  import Islands

  ghost function Marks(marked: map<Value, bool>): set<Value> {
    set v | v in marked && marked[v]
  }

  /** The marking of one function so far: every mark is justified and, unless it
      is still on the worklist, the operands of its instruction are marked too. */
  ghost predicate Marking(p: Proc, isPure: map<nat, bool>, marked: map<Value, bool>, workList: seq<Value>) {
    && (forall v :: v in Marks(marked) ==> v in p.defs && Needed(p, isPure, v))
    && (forall v :: v in workList ==> v in Marks(marked))
    && (forall v :: v in Marks(marked) && v !in workList ==> OperandsMarked(p, marked, v))
  }

  ghost predicate OperandsMarked(p: Proc, marked: map<Value, bool>, v: Value) {
    v in p.defs && forall op :: op in p.defs[v].operands && op in p.defs ==> op in Marks(marked)
  }

  /** The critical instructions of the blocks before position k are marked. */
  ghost predicate CriticalMarked(p: Proc, isPure: map<nat, bool>, marked: map<Value, bool>) {
    forall v :: v in p.defs && IsCritical(isPure, p.defs[v]) ==> v in Marks(marked)
  }

  lemma MarkCritical(p: Proc, isPure: map<nat, bool>, marked: map<Value, bool>, workList: seq<Value>, v: Value)
    requires Marking(p, isPure, marked, workList) && v in p.defs && IsCritical(isPure, p.defs[v])
    ensures Marking(p, isPure, marked[v := true], workList + [v])
    ensures Marks(marked[v := true]) == Marks(marked) + {v}
  {
    NeededCritical(p, isPure, v);
    MarkOne(p, isPure, marked, workList, v);
  }

  lemma MarkOne(p: Proc, isPure: map<nat, bool>, marked: map<Value, bool>, workList: seq<Value>, v: Value)
    requires Marking(p, isPure, marked, workList) && v in p.defs && Needed(p, isPure, v)
    ensures Marking(p, isPure, marked[v := true], workList + [v])
    ensures Marks(marked[v := true]) == Marks(marked) + {v}
  {
    hide Needed;
    var now := marked[v := true];
    assert Marks(now) == Marks(marked) + {v};
    forall u | u in Marks(now) && u !in workList + [v] ensures OperandsMarked(p, now, u) {
      assert v in workList + [v];
      assert forall x :: x in workList ==> x in workList + [v];
      assert OperandsMarked(p, marked, u);
    }
  }

  /** With the worklist empty the marks are exactly the needed instructions. */
  lemma MarkedExactly(p: Proc, isPure: map<nat, bool>, marked: map<Value, bool>)
    requires Marking(p, isPure, marked, []) && CriticalMarked(p, isPure, marked)
    ensures Marks(marked) == p.defs.Keys - Dead(p, isPure)
  {
    var s := Marks(marked);
    forall v, op | v in s && v in p.defs && op in p.defs && op in p.defs[v].operands ensures op in s {
      assert OperandsMarked(p, marked, v);
    }
    forall v | v in p.defs && Needed(p, isPure, v) ensures v in s {
      var chain :| UseChain(p, isPure, chain) && chain[|chain| - 1] == v;
      NeededLeast(p, isPure, s, chain);
    }
  }

  /** The marking while the operands of now are visited. */
  ghost predicate Visiting(p: Proc, isPure: map<nat, bool>, marked: map<Value, bool>, workList: seq<Value>,
          now: Value)
  {
    && now in p.defs
    && Needed(p, isPure, now)
    && Marking(p, isPure, marked, [now] + workList)
  }

  lemma TakeMarked(p: Proc, isPure: map<nat, bool>, marked: map<Value, bool>, workList: seq<Value>)
    requires Marking(p, isPure, marked, workList) && workList != []
    ensures Visiting(p, isPure, marked, workList[1..], workList[0])
  {
    hide Needed;
    assert workList[0] in workList;
    assert [workList[0]] + workList[1..] == workList;
  }

  lemma VisitStart(p: Proc, isPure: map<nat, bool>, marked: map<Value, bool>, workList: seq<Value>, now: Value)
    requires Visiting(p, isPure, marked, workList, now)
    ensures now in p.defs
  {
  }

  lemma CriticalStays(p: Proc, isPure: map<nat, bool>, before: map<Value, bool>, marked: map<Value, bool>)
    requires Marks(before) <= Marks(marked)
    ensures CriticalMarked(p, isPure, before) ==> CriticalMarked(p, isPure, marked)
  {
    hide Marks;
  }

  lemma VisitOperand(p: Proc, isPure: map<nat, bool>, marked: map<Value, bool>, workList: seq<Value>, now: Value,
          op: Value)
    requires Visiting(p, isPure, marked, workList, now) && op in p.defs && op in p.defs[now].operands
    ensures Visiting(p, isPure, marked[op := true], workList + [op], now)
    ensures Marks(marked[op := true]) == Marks(marked) + {op}
  {
    NeededOperand(p, isPure, now, op);
    MarkOne(p, isPure, marked, [now] + workList, op);
    assert ([now] + workList) + [op] == [now] + (workList + [op]);
  }

  lemma VisitEnd(p: Proc, isPure: map<nat, bool>, marked: map<Value, bool>, workList: seq<Value>, now: Value)
    requires Visiting(p, isPure, marked, workList, now)
    requires forall op :: op in p.defs[now].operands && op in p.defs ==> op in Marks(marked)
    ensures Marking(p, isPure, marked, workList)
  {
    hide Needed;
    forall v | v in Marks(marked) && v !in workList ensures OperandsMarked(p, marked, v) {
      if v != now { assert v !in [now] + workList; }
    }
    forall v | v in workList ensures v in Marks(marked) { assert v in [now] + workList; }
  }

  lemma SubsetSize<T>(a: set<T>, b: set<T>)
    requires a <= b
    ensures |a| <= |b|
  {
    if a != {} {
      var x :| x in a;
      SubsetSize(a - {x}, b - {x});
    }
  }

  // ---------- erasing ----------

  /** The instructions about to go have let go of their operands. */
  function Cleared(list: seq<Instr>, del: set<Value>): (r: seq<Instr>)
    ensures |r| == |list|
  {
    seq(|list|, i requires 0 <= i < |list| => if list[i].id in del then list[i].(operands := []) else list[i])
  }

  /** Erasing an instruction destroys it: remaining uses of it become null. */
  function EraseFrom(list: seq<Instr>, v: Value): seq<Instr> {
    SubList(map[v := Null], Without(list, {v}))
  }

  function ErasedCode(code: map<Block, seq<Instr>>, del: set<Value>, erased: set<Value>): map<Block, seq<Instr>> {
    map b | b in code :: Without(Cleared(code[b], del), erased)
  }

  ghost predicate NoUse(list: seq<Instr>, v: Value) {
    forall i :: 0 <= i < |list| ==> v !in list[i].operands
  }

  lemma SubUnused(list: seq<Instr>, v: Value)
    requires NoUse(list, v)
    ensures SubList(map[v := Null], list) == list
  {
    var sub := map[v := Null];
    forall i | 0 <= i < |list| ensures SubList(sub, list)[i] == list[i] {
      var vs := list[i].operands;
      assert SubOperands(sub, vs) == vs by {
        forall k | 0 <= k < |vs| ensures SubOperands(sub, vs)[k] == vs[k] { assert vs[k] in vs; }
      }
    }
  }

  lemma EraseListStep(list: seq<Instr>, del: set<Value>, erased: set<Value>, v: Value)
    requires v in del && forall i :: 0 <= i < |list| && list[i].id !in del ==> v !in list[i].operands
    ensures EraseFrom(Without(Cleared(list, del), erased), v) == Without(Cleared(list, del), erased + {v})
  {
    var now := Without(Cleared(list, del), erased);
    WithoutTwice(Cleared(list, del), erased, {v});
    var rest := Without(now, {v});
    forall i | 0 <= i < |rest| ensures v !in rest[i].operands {
      assert rest[i] in now;
      var j :| 0 <= j < |now| && now[j] == rest[i];
      assert now[j] in Cleared(list, del);
    }
    SubUnused(rest, v);
  }

  lemma {:induction false} ErasedAll(list: seq<Instr>, del: set<Value>)
    ensures Without(Cleared(list, del), del) == Without(list, del)
  {
    if |list| > 0 {
      ErasedAll(list[1..], del);
      assert Cleared(list, del)[1..] == Cleared(list[1..], del);
    }
  }

  lemma EraseStep(p: Proc, isPure: map<nat, bool>, functions: nat, erased: set<Value>, v: Value)
    requires p.Ok(functions) && v in Dead(p, isPure)
    ensures var del := Dead(p, isPure);
      var code := ErasedCode(p.code, del, erased);
      (map b | b in code :: EraseFrom(code[b], v)) == ErasedCode(p.code, del, erased + {v})
  {
    hide Dead, EraseFrom, Without, Cleared, Needed;
    var del := Dead(p, isPure);
    forall b | b in p.code
      ensures EraseFrom(Without(Cleared(p.code[b], del), erased), v) == Without(Cleared(p.code[b], del), erased + {v})
    {
      forall i | 0 <= i < |p.code[b]| && p.code[b][i].id !in del ensures v !in p.code[b][i].operands {
        KeptOperands(p, isPure, functions, b, p.code[b][i]);
      }
      EraseListStep(p.code[b], del, erased, v);
    }
  }

  lemma EraseNone(code: map<Block, seq<Instr>>, del: set<Value>)
    ensures ErasedCode(code, del, {}) == map b | b in code :: Cleared(code[b], del)
  {
    forall b | b in code ensures Without(Cleared(code[b], del), {}) == Cleared(code[b], del) {
      WithoutAll(Cleared(code[b], del), {});
    }
  }

  lemma EraseDone(code: map<Block, seq<Instr>>, del: set<Value>)
    ensures ErasedCode(code, del, del) == WithoutCode(code, del)
  {
    forall b | b in code ensures Without(Cleared(code[b], del), del) == Without(code[b], del) {
      ErasedAll(code[b], del);
    }
  }

  /** An unmarked instruction found in a block is dead, and every dead one is found. */
  lemma UnmarkedDead(p: Proc, isPure: map<nat, bool>, functions: nat, marked: map<Value, bool>, b: Block, i: nat)
    requires p.Ok(functions) && Marks(marked) == p.defs.Keys - Dead(p, isPure)
    requires b in p.code && i < |p.code[b]|
    ensures p.code[b][i].id in Dead(p, isPure) <==> p.code[b][i].id !in Marks(marked)
  {
    hide Needed;
    assert p.InstrOk(functions, p.code[b][i]);
  }

  lemma AllFound(p: Proc, isPure: map<nat, bool>, functions: nat, found: set<Value>)
    requires p.Ok(functions) && found <= Dead(p, isPure)
    requires forall b, i ::
        b in p.code && 0 <= i < |p.code[b]| && p.code[b][i].id in Dead(p, isPure) ==> p.code[b][i].id in found
    ensures found == Dead(p, isPure)
  {
    hide Needed;
    forall v | v in Dead(p, isPure) ensures v in found {
      assert p.Placed(p.defs[v]);
      var b :| b in p.code && p.defs[v] in p.code[b];
      var i :| 0 <= i < |p.code[b]| && p.code[b][i] == p.defs[v];
      assert p.code[b][i].id in found;
    }
  }

  lemma CriticalFound(p: Proc, isPure: map<nat, bool>, functions: nat, marked: map<Value, bool>)
    requires p.Ok(functions)
    requires forall b, i ::
        b in p.code && 0 <= i < |p.code[b]| && IsCritical(isPure, p.code[b][i]) ==> p.code[b][i].id in Marks(marked)
    ensures CriticalMarked(p, isPure, marked)
  {
    forall v | v in p.defs && IsCritical(isPure, p.defs[v]) ensures v in Marks(marked) {
      assert p.Placed(p.defs[v]);
      var b :| b in p.code && p.defs[v] in p.code[b];
      var i :| 0 <= i < |p.code[b]| && p.code[b][i] == p.defs[v];
      assert p.code[b][i].id in Marks(marked);
    }
  }

  // ---------- the pass ----------

  /** The number of instructions dead in the first n functions. */
  ghost function DeadCount(pr: seq<Proc>, isPure: map<nat, bool>, n: nat): nat
    requires n <= |pr|
  {
    if n == 0 then 0 else DeadCount(pr, isPure, n - 1) + |Dead(pr[n - 1], isPure)|
  }

  /** The first n functions are swept, the others as they were. */
  ghost predicate SweptUpTo(pr: seq<Proc>, isPure: map<nat, bool>, now: seq<Proc>, n: nat) {
    && |now| == |pr|
    && (forall f :: 0 <= f < n && f < |pr| ==> now[f] == Swept(pr[f], isPure))
    && (forall f :: n <= f < |pr| ==> now[f] == pr[f])
  }

  class DeadCode {
    const funcInfo: FuncInfo.FuncInfo
    var procs: seq<Proc>
    var insCount: nat
    var workList: seq<Value>
    var marked: map<Value, bool>

    constructor (module_: seq<Proc>)
      ensures procs == module_ && insCount == 0 && fresh(funcInfo)
      ensures funcInfo.worklist == [] && funcInfo.isPure == map[] && funcInfo.entered == []
    {
      var info := new FuncInfo.FuncInfo();
      funcInfo := info;
      procs, insCount, workList, marked := module_, 0, [], map[];
    }

    predicate IsMarked(v: Value)
      reads this
      ensures IsMarked(v) <==> v in Marks(marked)
    {
      v in marked && marked[v]
    }

    /** Mark the definitions of an instruction's operands and queue the new ones. */
    method MarkOperands(p: Proc, ghost isPure: map<nat, bool>, now: Value)
      requires Visiting(p, isPure, marked, workList, now)
      requires forall v :: v in p.defs ==> v.IsInstruction()
      modifies this`workList, this`marked
      ensures Marking(p, isPure, marked, workList)
      ensures old(Marks(marked)) <= Marks(marked)
      ensures old(CriticalMarked(p, isPure, marked)) ==> CriticalMarked(p, isPure, marked)
      ensures Marks(marked) == old(Marks(marked)) ==> workList == old(workList)
    {
      hide *;
      VisitStart(p, isPure, marked, workList, now);
      var operands := p.defs[now].operands;
      ghost var before, queue := Marks(marked), workList;
      for k := 0 to |operands|
        invariant Visiting(p, isPure, marked, workList, now)
        invariant before <= Marks(marked)
        invariant Marks(marked) == before ==> workList == queue
        invariant forall i :: 0 <= i < k && operands[i] in p.defs ==> operands[i] in Marks(marked)
      {
        var def := operands[k];
        if !def.IsInstruction() { continue; }
        if IsMarked(def) { continue; }
        if def !in p.defs { continue; }
        VisitOperand(p, isPure, marked, workList, now, def);
        marked := marked[def := true];
        workList := workList + [def];
      }
      VisitEnd(p, isPure, marked, workList, now);
      CriticalStays(p, isPure, old(marked), marked);
    }

    /** The marked instructions are exactly the needed ones. */
    method MarkFunction(func: nat)
      requires func < |procs| && procs[func].Ok(|procs|)
      requires forall g :: 0 <= g < |procs| ==> g in funcInfo.isPure
      modifies this`workList, this`marked
      ensures Marks(marked) == procs[func].defs.Keys - Dead(procs[func], funcInfo.isPure)
    {
      hide *;
      var p := procs[func];
      ghost var isPure := funcInfo.isPure;
      workList, marked := [], map[];
      StartMarking(p, isPure);
      BlocksHaveCode(p, |procs|);
      for k := 0 to |p.g.blocks|
        invariant Marking(p, isPure, marked, workList)
        invariant forall j, i ::
            0 <= j < k && 0 <= i < |p.code[p.g.blocks[j]]| && IsCritical(isPure, p.code[p.g.blocks[j]][i]) ==>
          p.code[p.g.blocks[j]][i].id in Marks(marked)
      {
        var list := p.code[p.g.blocks[k]];
        for n := 0 to |list|
          invariant Marking(p, isPure, marked, workList)
          invariant forall j, i ::
              0 <= j < k && 0 <= i < |p.code[p.g.blocks[j]]| && IsCritical(isPure, p.code[p.g.blocks[j]][i]) ==>
            p.code[p.g.blocks[j]][i].id in Marks(marked)
          invariant forall i :: 0 <= i < n && IsCritical(isPure, list[i]) ==> list[i].id in Marks(marked)
        {
          var ins := list[n];
          if IsCritical(funcInfo.isPure, ins) {
            InstrDefined(p, |procs|, p.g.blocks[k], n);
            MarkCritical(p, isPure, marked, workList, ins.id);
            marked := marked[ins.id := true];
            workList := workList + [ins.id];
          }
        }
      }
      AllCritical(p, isPure, |procs|, marked);
      while workList != []
        invariant Marking(p, isPure, marked, workList) && CriticalMarked(p, isPure, marked)
        decreases |p.defs.Keys - Marks(marked)|, |workList|
      {
        TakeMarked(p, isPure, marked, workList);
        var now := workList[0];
        workList := workList[1..];
        ghost var before := Marks(marked);
        MarkOperands(p, isPure, now);
        MarksGrow(p, isPure, marked, workList, before);
      }
      MarkedExactly(p, isPure, marked);
    }

    /** Remove what is not marked; tell whether anything was. */
    method Sweep(func: nat) returns (changed: bool)
      requires func < |procs| && procs[func].Ok(|procs|)
      requires Marks(marked) == procs[func].defs.Keys - Dead(procs[func], funcInfo.isPure)
      modifies this`procs, this`insCount
      ensures procs == old(procs)[func := Swept(old(procs[func]), funcInfo.isPure)]
      ensures changed <==> Dead(old(procs[func]), funcInfo.isPure) != {}
      ensures insCount == old(insCount) + |Dead(old(procs[func]), funcInfo.isPure)|
    {
      hide *;
      var p := procs[func];
      ghost var isPure := funcInfo.isPure;
      ghost var dead := Dead(p, isPure);
      BlocksHaveCode(p, |procs|);
      var waitDel: set<Value> := {};
      for k := 0 to |p.g.blocks|
        invariant procs == old(procs) && insCount == old(insCount) && waitDel <= dead
        invariant forall j, i ::
            0 <= j < k && 0 <= i < |p.code[p.g.blocks[j]]| && p.code[p.g.blocks[j]][i].id in dead ==>
          p.code[p.g.blocks[j]][i].id in waitDel
      {
        var list := p.code[p.g.blocks[k]];
        for n := 0 to |list|
          invariant procs == old(procs) && insCount == old(insCount) && waitDel <= dead
          invariant forall j, i ::
              0 <= j < k && 0 <= i < |p.code[p.g.blocks[j]]| && p.code[p.g.blocks[j]][i].id in dead ==>
            p.code[p.g.blocks[j]][i].id in waitDel
          invariant forall i :: 0 <= i < n && list[i].id in dead ==> list[i].id in waitDel
        {
          UnmarkedDead(p, isPure, |procs|, marked, p.g.blocks[k], n);
          if !IsMarked(list[n].id) {
            waitDel := waitDel + {list[n].id};
          }
        }
      }
      AllDead(p, isPure, |procs|, waitDel);
      EraseNone(p.code, waitDel);
      assert waitDel - waitDel == {};
      var code := map b | b in p.code :: Cleared(p.code[b], waitDel);
      var rest := waitDel;
      while rest != {}
        invariant procs == old(procs) && insCount == old(insCount) && rest <= waitDel
        invariant code == ErasedCode(p.code, waitDel, waitDel - rest)
        decreases |rest|
      {
        var inst := PickOne(rest);
        EraseStep(p, isPure, |procs|, waitDel - rest, inst);
        assert (waitDel - rest) + {inst} == waitDel - (rest - {inst});
        code := map b | b in code :: EraseFrom(code[b], inst);
        rest := rest - {inst};
      }
      assert waitDel - {} == waitDel;
      EraseDone(p.code, waitDel);
      SweptIs(p, isPure);
      procs := procs[func := p.(code := code, defs := p.defs - waitDel)];
      insCount := insCount + |waitDel|;
      changed := waitDel != {};
    }

    /** Every function loses exactly its dead instructions, those of its islands of
        values that nothing needs; the second round of the loop never removes anything. */
    method Run(uses: FuncInfo.Uses) returns (ghost rounds: nat)
      requires Ok(procs) && FuncInfo.UsesOk(procs, uses)
      requires funcInfo.worklist == [] && funcInfo.isPure == map[] && funcInfo.entered == []
      modifies this, funcInfo
      ensures FuncInfo.ExactlyPure(old(procs), funcInfo.isPure)
      ensures AllSwept(old(procs), funcInfo.isPure, procs) && Ok(procs)
      ensures Islands.IslandsGone(old(procs), procs)
      ensures insCount == old(insCount) + DeadCount(old(procs), funcInfo.isPure, |old(procs)|)
      ensures rounds <= 2
    {
      hide *;
      funcInfo.Run(procs, uses);
      ghost var pr, isPure := procs, funcInfo.isPure;
      NothingSwept(pr, isPure);
      var changed := true;
      rounds := 0;
      while changed
        invariant funcInfo.isPure == isPure && rounds <= 2 && Ok(procs) && |procs| == |pr|
        invariant rounds == 0 ==> procs == pr && insCount == old(insCount) && changed
        invariant rounds > 0 ==> AllSwept(pr, isPure, procs) && insCount == old(insCount) + DeadCount(pr, isPure, |pr|)
        invariant rounds == 2 ==> !changed
        decreases 2 - rounds
      {
        changed := false;
        ghost var start := procs;
        NothingSwept(start, isPure);
        if rounds > 0 { SecondRound(pr, isPure, start); }
        for f := 0 to |procs|
          invariant funcInfo.isPure == isPure && SweptUpTo(start, isPure, procs, f) && Ok(procs) && |procs| == |start|
          invariant rounds == 0 ==> insCount == old(insCount) + DeadCount(start, isPure, f)
          invariant rounds > 0 ==> !changed && insCount == old(insCount) + DeadCount(pr, isPure, |pr|)
        {
          RoundStep(start, isPure, procs, f);
          PureKnown(pr, isPure, |procs|);
          MarkFunction(f);
          var erased := Sweep(f);
          changed := changed || erased;
        }
        RoundEnd(pr, isPure, start, procs, rounds);
        rounds := rounds + 1;
      }
      AllIslandsGone(pr, isPure, procs);
    }
  }

  // ---------- the rounds ----------

  lemma AllIslandsGone(pr: seq<Proc>, isPure: map<nat, bool>, swept: seq<Proc>)
    requires FuncInfo.ExactlyPure(pr, isPure) && AllSwept(pr, isPure, swept)
    ensures Islands.IslandsGone(pr, swept)
  {
    hide FuncInfo.ExactlyPure, Swept, Islands.IslandsGone;
    Islands.SweptIslands(pr, isPure, swept);
  }

  lemma NothingSwept(pr: seq<Proc>, isPure: map<nat, bool>)
    ensures SweptUpTo(pr, isPure, pr, 0) && DeadCount(pr, isPure, 0) == 0
  {
  }

  /** Before the second round no function holds a dead instruction. */
  lemma SecondRound(pr: seq<Proc>, isPure: map<nat, bool>, start: seq<Proc>)
    requires AllSwept(pr, isPure, start)
    ensures forall f :: 0 <= f < |start| ==> Dead(start[f], isPure) == {}
  {
    hide Dead, Swept;
    forall f | 0 <= f < |start| ensures Dead(start[f], isPure) == {} {
      SweptHasNoDead(pr[f], isPure);
    }
  }

  lemma RoundStep(start: seq<Proc>, isPure: map<nat, bool>, now: seq<Proc>, f: nat)
    requires SweptUpTo(start, isPure, now, f) && Ok(now) && f < |now|
    ensures now[f] == start[f] && now[f].Ok(|now|)
    ensures var next := now[f := Swept(now[f], isPure)];
      SweptUpTo(start, isPure, next, f + 1) && Ok(next)
    ensures DeadCount(start, isPure, f + 1) == DeadCount(start, isPure, f) + |Dead(start[f], isPure)|
  {
    hide Dead, Swept, Proc.Ok;
    SweptOk(now[f], isPure, |now|);
  }

  lemma PureKnown(pr: seq<Proc>, isPure: map<nat, bool>, n: nat)
    requires FuncInfo.ExactlyPure(pr, isPure) && n <= |pr|
    ensures forall g :: 0 <= g < n ==> g in isPure
  {
  }

  lemma RoundEnd(pr: seq<Proc>, isPure: map<nat, bool>, start: seq<Proc>, now: seq<Proc>, rounds: nat)
    requires SweptUpTo(start, isPure, now, |start|)
    requires if rounds == 0 then start == pr else AllSwept(pr, isPure, start)
    ensures AllSwept(pr, isPure, now)
  {
    hide Dead, Swept;
    if rounds > 0 {
      forall f | 0 <= f < |pr| ensures now[f] == Swept(pr[f], isPure) {
        SweptTwice(pr[f], isPure);
      }
    }
  }

  /** The next element of an unordered set. */
  method PickOne(s: set<Value>) returns (v: Value)
    requires s != {}
    ensures v in s
  {
    v :| v in s;
  }

  // ---------- facts for the methods ----------

  lemma StartMarking(p: Proc, isPure: map<nat, bool>)
    ensures Marking(p, isPure, map[], [])
  {
  }

  lemma BlocksHaveCode(p: Proc, functions: nat)
    requires p.Ok(functions)
    ensures forall k :: 0 <= k < |p.g.blocks| ==> p.g.blocks[k] in p.code
    ensures forall b :: b in p.code ==> b in p.g.blocks
    ensures forall v :: v in p.defs ==> v.IsInstruction()
  {
    forall k | 0 <= k < |p.g.blocks| ensures p.g.blocks[k] in p.code {
      var b := p.g.blocks[k];
      assert b in p.g.blocks;
      assert b in p.code;
    }
  }

  lemma InstrDefined(p: Proc, functions: nat, b: Block, i: nat)
    requires p.Ok(functions) && b in p.code && i < |p.code[b]|
    ensures p.code[b][i].id in p.defs && p.defs[p.code[b][i].id] == p.code[b][i]
  {
    hide Proc.Placed;
    assert p.InstrOk(functions, p.code[b][i]);
  }

  lemma AllCritical(p: Proc, isPure: map<nat, bool>, functions: nat, marked: map<Value, bool>)
    requires p.Ok(functions) && forall k :: 0 <= k < |p.g.blocks| ==> p.g.blocks[k] in p.code
    requires forall j, i ::
        0 <= j < |p.g.blocks| && 0 <= i < |p.code[p.g.blocks[j]]| && IsCritical(isPure, p.code[p.g.blocks[j]][i]) ==>
      p.code[p.g.blocks[j]][i].id in Marks(marked)
    ensures CriticalMarked(p, isPure, marked)
  {
    hide Proc.Placed, Proc.InstrOk, IsCritical, CriticalMarked, Marks;
    forall b, i | b in p.code && 0 <= i < |p.code[b]| && IsCritical(isPure, p.code[b][i])
      ensures p.code[b][i].id in Marks(marked)
    {
      assert b in p.g.blocks;
      var j :| 0 <= j < |p.g.blocks| && p.g.blocks[j] == b;
      assert p.code[p.g.blocks[j]][i] == p.code[b][i];
    }
    CriticalFound(p, isPure, functions, marked);
  }

  lemma AllDead(p: Proc, isPure: map<nat, bool>, functions: nat, found: set<Value>)
    requires p.Ok(functions) && found <= Dead(p, isPure) && forall k ::
        0 <= k < |p.g.blocks| ==> p.g.blocks[k] in p.code
    requires forall j, i ::
        0 <= j < |p.g.blocks| && 0 <= i < |p.code[p.g.blocks[j]]| && p.code[p.g.blocks[j]][i].id in Dead(p, isPure) ==>
      p.code[p.g.blocks[j]][i].id in found
    ensures found == Dead(p, isPure)
  {
    hide Proc.Placed, Proc.InstrOk, Dead;
    forall b, i | b in p.code && 0 <= i < |p.code[b]| && p.code[b][i].id in Dead(p, isPure)
      ensures p.code[b][i].id in found
    {
      assert b in p.g.blocks;
      var j :| 0 <= j < |p.g.blocks| && p.g.blocks[j] == b;
      assert p.code[p.g.blocks[j]][i] == p.code[b][i];
    }
    AllFound(p, isPure, functions, found);
  }

  lemma MarksGrow(p: Proc, isPure: map<nat, bool>, marked: map<Value, bool>, workList: seq<Value>, before: set<Value>)
    requires Marking(p, isPure, marked, workList) && before <= Marks(marked)
    ensures Marks(marked) != before ==> |p.defs.Keys - Marks(marked)| < |p.defs.Keys - before|
    ensures Marks(marked) == before ==> |p.defs.Keys - Marks(marked)| == |p.defs.Keys - before|
  {
    hide Needed;
    if Marks(marked) != before {
      var v :| v in Marks(marked) && v !in before;
      var small, big := p.defs.Keys - Marks(marked), p.defs.Keys - before;
      SubsetSize(small, big - {v});
    }
  }

  lemma SweptIs(p: Proc, isPure: map<nat, bool>)
    ensures Swept(p, isPure) == p.(code := WithoutCode(p.code, Dead(p, isPure)), defs := p.defs - Dead(p, isPure))
  {
  }
}
