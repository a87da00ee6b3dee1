/** When a whole run with copies returns what the run with edges returns: on every
    edge the slots still to be read hold what the edge demands. */
module SlotRuns {
  import opened LoongArch
  import opened TypedIr
  import opened FrameLayout
  import opened Lowering
  import opened Copies
  import opened TypedRun
  import opened PhiEdges

  // ---------- what is still read ----------

  /** A phi of l takes v on the edge from b. */
  ghost predicate TakenFrom(f: Fn, b: int, l: int, v: nat) {
    l in f.code && exists i ::
        0 <= i < |f.code[l]| && f.code[l][i].Phi? && Incoming(f.code[l][i].pairs, b) == Some(Name(v))
  }

  /** Block b reads v, in an instruction or on an edge. */
  ghost predicate Reads(f: Fn, b: int, v: nat) {
    && b in f.code && |f.code[b]| > 0
    && (|| (exists i :: 0 <= i < |f.code[b]| && Name(v) in Operands(f.code[b][i]))
        || (exists l :: l in Successors(Last(f, b)) && TakenFrom(f, b, l, v)))
  }

  /** The path follows branches, enters no block with v as a phi after its first,
      and its last block reads v. */
  ghost predicate ReadAlong(f: Fn, p: seq<int>, v: nat) {
    && |p| > 0
    && (if |p| == 1 then Reads(f, p[0], v)
        else
          && p[0] in f.code && |f.code[p[0]]| > 0
          && p[1] in Successors(Last(f, p[0])) && p[1] in f.code && v !in PhiNames(f.code[p[1]])
          && ReadAlong(f, p[1..], v))
  }

  /** Having entered b, v may be read before it is a phi entered again. */
  ghost predicate StillRead(f: Fn, b: int, v: nat) {
    exists p: seq<int> :: |p| > 0 && p[0] == b && ReadAlong(f, p, v)
  }

  lemma ReadHere(f: Fn, b: int, v: nat)
    requires Reads(f, b, v)
    ensures StillRead(f, b, v)
  {
    hide Reads;
    assert [b][0] == b && ReadAlong(f, [b], v);
  }

  lemma ReadLater(f: Fn, b: int, l: int, v: nat)
    requires b in f.code && |f.code[b]| > 0 && l in Successors(Last(f, b)) && l in f.code
    requires v !in PhiNames(f.code[l]) && StillRead(f, l, v)
    ensures StillRead(f, b, v)
  {
    hide Reads, PhiNames;
    var p: seq<int> :| |p| > 0 && p[0] == l && ReadAlong(f, p, v);
    var q := [b] + p;
    assert q[1..] == p && q[1] == l;
    assert q[0] == b && ReadAlong(f, q, v);
  }

  // ---------- the condition on a function ----------

  /** The slot of v holds what the edge from b to l demands of it, if anything. */
  predicate SlotKept(f: Fn, b: int, t: Inst, l: int, v: nat)
    requires SuccessorsFed(f, t) && l in f.code
  {
    var cs := AllCopies(f, b, t);
    match Wanted(f, b, l, v)
    case Some(op) => SameOperand(Held(cs, |cs|, v), op)
    case None => true
  }

  /** On every edge out of b the values still read afterwards are right in their
      slots, and the copies leave the condition alone. */
  ghost predicate EdgesOk(f: Fn, b: int)
    requires b in f.code && |f.code[b]| > 0 && SuccessorsFed(f, Last(f, b))
  {
    var t := Last(f, b);
    && (forall l, v: nat :: l in Successors(t) && l in f.code && StillRead(f, l, v) ==> SlotKept(f, b, t, l, v))
    && ConditionKept(f, b, t)
  }

  ghost predicate BlockShape(f: Fn, b: int) {
    b in f.code && |f.code[b]| > 0 && SuccessorsFed(f, Last(f, b))
  }

  /** All edges of the function. */
  ghost predicate SlotsKept(f: Fn) {
    forall b :: b in f.code ==> BlockShape(f, b) && EdgesOk(f, b)
  }

  /** What can be checked block by block: the copies are in a safe order, each phi
      of a successor copies the value it lists for the block, a phi of the other
      successor that is still read from this one is only copied to itself, and so
      is the condition. */
  ghost predicate EdgesSafe(f: Fn, b: int)
    requires BlockShape(f, b)
  {
    var t := Last(f, b);
    var cs := AllCopies(f, b, t);
    && OrderSafe(cs)
    && ConditionUntouched(f, b, t)
    && (forall l, i :: l in Successors(t) && l in f.code && 0 <= i < |f.code[l]| && f.code[l][i].Phi? ==>
          TakesIncoming(f.code[l][i], b))
    && (forall l, k :: l in Successors(t) && l in f.code && 0 <= k < |cs| && StillRead(f, l, cs[k].dst) ==>
          cs[k].dst in PhiNames(f.code[l]) || cs[k].src == Name(cs[k].dst))
  }

  predicate TakesIncoming(phi: Inst, b: int) {
    phi.Phi? && |phi.pairs| > 0 && (Incoming(phi.pairs, b).Some? ==> CopyIsIncoming(phi, b))
  }

  lemma SafeSlotKept(f: Fn, b: int, l: int, v: nat)
    requires BlockShape(f, b) && NamesDistinct(f) && EdgesSafe(f, b)
    requires l in Successors(Last(f, b)) && l in f.code && StillRead(f, l, v)
    ensures SlotKept(f, b, Last(f, b), l, v)
  {
    hide AllCopies, NamesDistinct, OrderSafe, Held, PhisFed, StillRead, CopyIsIncoming, ConditionUntouched;
    var t := Last(f, b);
    NotAPhi(f, l, v);
    if FindPhi(f.code[l], v).Some? {
      var i := FoundAt(f, l, v);
      assert TakesIncoming(f.code[l][i], b);
      if Incoming(f.code[l][i].pairs, b).Some? { EnteredRight(f, b, t, l, v); }
    } else {
      OtherRightIff(f, b, t, v);
    }
  }

  /** The block by block conditions are enough. */
  lemma SafeEdgesOk(f: Fn, b: int)
    requires BlockShape(f, b) && NamesDistinct(f) && EdgesSafe(f, b)
    ensures EdgesOk(f, b)
  {
    hide AllCopies, NamesDistinct, Held, PhisFed, StillRead, SlotKept, SuccessorsFed, OrderSafe;
    var t := Last(f, b);
    forall l, v: nat | l in Successors(t) && l in f.code && StillRead(f, l, v) ensures SlotKept(f, b, t, l, v) {
      SafeSlotKept(f, b, l, v);
    }
    if t.CondBr? && t.c.Name? { OtherRightIff(f, b, t, t.c.v); }
  }

  // ---------- runs that agree ----------

  /** On the names in live, the second values extend the first. */
  ghost predicate Agree(live: iset<nat>, x: Env, y: Env) {
    forall v :: v in live && v in x ==> v in y && y[v] == x[v]
  }

  ghost function Live(f: Fn, b: int): iset<nat> {
    iset v: nat | StillRead(f, b, v)
  }

  ghost predicate Covered(live: iset<nat>, ops: seq<Operand>) {
    forall v: nat :: Name(v) in ops ==> v in live
  }

  lemma EvalAgree(sym: nat -> int, live: iset<nat>, x: Env, y: Env, op: Operand)
    requires Agree(live, x, y) && (op.Name? ==> op.v in live) && Eval(sym, x, op).Some?
    ensures Eval(sym, y, op) == Eval(sym, x, op)
  {
  }

  lemma StepAgree(decls: map<nat, Decl>, sym: nat -> int, place: nat -> int, free: int -> bool, ins: Inst,
          live: iset<nat>, x: IrState, y: IrState)
    requires Agree(live, x.env, y.env) && x.mem == y.mem && Covered(live, Operands(ins))
    requires Step(decls, sym, place, free, ins, x).Some?
    ensures var x', y' := Step(decls, sym, place, free, ins, x).value, Step(decls, sym, place, free, ins, y);
      y'.Some? && Agree(live, x'.env, y'.value.env) && x'.mem == y'.value.mem
  {
    hide Eval, HasTy, Read, Write, AllFree, BinResult, Compare, TypeOf;
    var ops := Operands(ins);
    forall i | 0 <= i < |ops| && Eval(sym, x.env, ops[i]).Some?
        ensures Eval(sym, y.env, ops[i]) == Eval(sym, x.env, ops[i]) {
      assert ops[i].Name? ==> Name(ops[i].v) in ops;
      EvalAgree(sym, live, x.env, y.env, ops[i]);
    }
    match ins
    case Binary(_, _, a, b) => assert ops[0] == a && ops[1] == b;
    case Icmp(_, _, a, b) => assert ops[0] == a && ops[1] == b;
    case Zext(_, a) => assert ops[0] == a;
    case Alloca(_, _) =>
    case Load(_, _, p) => assert ops[0] == p;
    case Store(a, p) => assert ops[0] == a && ops[1] == p;
    case Gep(_, base, idxs, _) => assert ops[0] == base && ops[|idxs|] == idxs[|idxs| - 1];
  }

  lemma {:induction false} StepsAgree(decls: map<nat, Decl>, sym: nat -> int, place: nat -> int, free: int -> bool,
          list: seq<Inst>, live: iset<nat>, x: IrState, y: IrState)
    requires Agree(live, x.env, y.env) && x.mem == y.mem
    requires forall i :: 0 <= i < |list| ==> Covered(live, Operands(list[i]))
    requires Steps(decls, sym, place, free, list, x).Some?
    ensures var x', y' := Steps(decls, sym, place, free, list, x).value, Steps(decls, sym, place, free, list, y);
      y'.Some? && Agree(live, x'.env, y'.value.env) && x'.mem == y'.value.mem
    decreases |list|
  {
    hide Step, Agree, Covered, Operands;
    if |list| > 0 {
      StepAgree(decls, sym, place, free, list[0], live, x, y);
      StepsAgree(decls, sym, place, free, list[1..], live,
        Step(decls, sym, place, free, list[0], x).value, Step(decls, sym, place, free, list[0], y).value);
    }
  }

  lemma {:induction false} NonPhiFrom(list: seq<Inst>, i: nat) returns (j: nat)
    requires i < |NonPhis(list)|
    ensures j < |list| && list[j] == NonPhis(list)[i]
  {
    if list[0].Phi? {
      j := NonPhiFrom(list[1..], i);
      j := j + 1;
    } else if i == 0 {
      j := 0;
    } else {
      j := NonPhiFrom(list[1..], i - 1);
      j := j + 1;
    }
  }

  lemma ReadNamed(f: Fn, b: int, i: nat)
    requires b in f.code && i < |f.code[b]|
    ensures Covered(Live(f, b), Operands(f.code[b][i]))
  {
    hide StillRead, Operands;
    forall v: nat | Name(v) in Operands(f.code[b][i]) ensures v in Live(f, b) {
      assert Reads(f, b, v);
      ReadHere(f, b, v);
    }
  }

  /** The body of a block does the same in both runs. */
  lemma BodyAgree(f: Fn, sym: nat -> int, place: nat -> int, free: int -> bool, b: int, x: IrState, y: IrState)
    requires b in f.code && |f.code[b]| > 0 && Agree(Live(f, b), x.env, y.env) && x.mem == y.mem
    requires Steps(f.decls, sym, place, free, NonPhis(Body(f, b)), x).Some?
    ensures var list := NonPhis(Body(f, b));
      var x', y' := Steps(f.decls, sym, place, free, list, x).value, Steps(f.decls, sym, place, free, list, y);
      y'.Some? && Agree(Live(f, b), x'.env, y'.value.env) && x'.mem == y'.value.mem
  {
    hide Steps, Agree, Live, Covered, NonPhis, Operands;
    var list := NonPhis(Body(f, b));
    forall i | 0 <= i < |list| ensures Covered(Live(f, b), Operands(list[i])) {
      var j := NonPhiFrom(Body(f, b), i);
      ReadNamed(f, b, j);
    }
    StepsAgree(f.decls, sym, place, free, list, Live(f, b), x, y);
  }

  lemma WantedRead(f: Fn, b: int, l: int, v: nat)
    requires b in f.code && |f.code[b]| > 0 && l in Successors(Last(f, b)) && l in f.code && StillRead(f, l, v)
    requires Wanted(f, b, l, v).Some? && Wanted(f, b, l, v).value.Name?
    ensures StillRead(f, b, Wanted(f, b, l, v).value.v)
  {
    hide StillRead, Operands;
    NotAPhi(f, l, v);
    if FindPhi(f.code[l], v).Some? {
      var i := FoundAt(f, l, v);
      var w := Wanted(f, b, l, v).value.v;
      assert TakenFrom(f, b, l, w);
      assert Reads(f, b, w);
      ReadHere(f, b, w);
    } else {
      ReadLater(f, b, l, v);
    }
  }

  lemma GetIs(env: Env, v: nat)
    ensures Get(env, v).Some? <==> v in env
    ensures v in env ==> Get(env, v) == Some(env[v])
  {
  }

  /** On entering l the values still read are the same in both runs. */
  lemma EdgeAgree(f: Fn, sym: nat -> int, b: int, l: int, x: Env, y: Env)
    requires BlockShape(f, b) && EdgesOk(f, b) && Agree(Live(f, b), x, y)
    requires l in Successors(Last(f, b)) && l in f.code
    ensures Agree(Live(f, l), EdgeEnv(f, sym, x, b, l), AfterCopies(f, sym, b, Last(f, b), y))
  {
    hide StillRead, EdgeEnv, AfterCopies, AllCopies, Held, Wanted, Get, Eval, SuccessorsFed;
    var t := Last(f, b);
    var to, at := EdgeEnv(f, sym, x, b, l), AfterCopies(f, sym, b, t, y);
    forall v | v in Live(f, l) && v in to ensures v in at && at[v] == to[v] {
      EdgeGet(f, sym, x, b, l, v);
      GetIs(to, v);
      var op := Wanted(f, b, l, v).value;
      if op.Name? { WantedRead(f, b, l, v); }
      EvalAgree(sym, Live(f, b), x, y, op);
      SlotValue(f, sym, b, t, y, v);
      assert SlotKept(f, b, t, l, v);
      var cs := AllCopies(f, b, t);
      SameValue(sym, y, Held(cs, |cs|, v), op);
      GetIs(at, v);
    }
  }

  /** The choice is the same, though the copies come first. */
  lemma ChoiceAgree(f: Fn, sym: nat -> int, b: int, x: Env, y: Env)
    requires BlockShape(f, b) && EdgesOk(f, b) && Agree(Live(f, b), x, y) && !Choose(sym, x, Last(f, b)).Wrong?
    ensures Choose(sym, AfterCopies(f, sym, b, Last(f, b), y), Last(f, b)) == Choose(sym, x, Last(f, b))
  {
    hide StillRead, AllCopies, Held, Eval, SuccessorsFed, SlotKept, Live, Agree;
    var t := Last(f, b);
    ReadNamed(f, b, |f.code[b]| - 1);
    match t
    case CondBr(c, _, _) =>
      assert c.Name? ==> c in Operands(t);
      EvalAgree(sym, Live(f, b), x, y, c);
      if c.Name? {
        SlotValue(f, sym, b, t, y, c.v);
        EvalIsGet(sym, AfterCopies(f, sym, b, t, y), c.v);
      } else {
        EvalConst(sym, y, AfterCopies(f, sym, b, t, y), c);
      }
    case Ret(Some(op)) =>
      assert op.Name? ==> op in Operands(t);
      EvalAgree(sym, Live(f, b), x, y, op);
      NoCopies(f, sym, b, t, y);
    case _ =>
  }

  lemma EvalIsGet(sym: nat -> int, env: Env, v: nat)
    ensures Eval(sym, env, Name(v)) == Get(env, v)
  {
  }

  lemma EvalConst(sym: nat -> int, x: Env, y: Env, op: Operand)
    requires !op.Name?
    ensures Eval(sym, x, op) == Eval(sym, y, op)
  {
  }

  lemma NoCopies(f: Fn, sym: nat -> int, b: int, t: Inst, env: Env)
    requires SuccessorsFed(f, t) && t.Ret?
    ensures AllCopies(f, b, t) == [] && AfterCopies(f, sym, b, t, env) == env
  {
  }

  /** A function whose slots are kept returns the same when the phis are replaced by
      copies: every run that returns with edges returns with copies, with the same
      result and memory. */
  lemma {:induction false} SlotsReturn(f: Fn, sym: nat -> int, place: nat -> int, free: int -> bool, b: int,
          x: IrState, y: IrState, fuel: nat)
    requires SlotsKept(f) && Agree(Live(f, b), x.env, y.env) && x.mem == y.mem
    requires RunIr(f, sym, place, free, b, x, fuel).Returned?
    ensures RunSlots(f, sym, place, free, b, y, fuel) == RunIr(f, sym, place, free, b, x, fuel)
    decreases fuel
  {
    hide *;
    RunIrStep(f, sym, place, free, b, x, fuel);
    KeptAt(f, b);
    BodyAgree(f, sym, place, free, b, x, y);
    var list := NonPhis(Body(f, b));
    var x1, y1 := Steps(f.decls, sym, place, free, list, x).value, Steps(f.decls, sym, place, free, list, y).value;
    ChoiceAgree(f, sym, b, x1.env, y1.env);
    RunSlotsStep(f, sym, place, free, b, y, fuel);
    match Choose(sym, x1.env, Last(f, b))
    case Goto(l) =>
      ChosenIsSuccessor(sym, x1.env, Last(f, b));
      EdgeAgree(f, sym, b, l, x1.env, y1.env);
      SlotsReturn(f, sym, place, free, l, x1.(env := EdgeEnv(f, sym, x1.env, b, l)),
        y1.(env := AfterCopies(f, sym, b, Last(f, b), y1.env)), fuel - 1);
    case _ =>
  }

  lemma KeptAt(f: Fn, b: int)
    requires SlotsKept(f) && b in f.code
    ensures |f.code[b]| > 0 && SuccessorsFed(f, Last(f, b)) && BlockShape(f, b) && EdgesOk(f, b)
  {
    hide EdgesOk, SuccessorsFed;
  }

  lemma SelfAgree(live: iset<nat>, env: Env)
    ensures Agree(live, env, env)
  {
  }
}
