/** Runs of a function without calls: the typed instructions with phis assigned on
    the edge taken, and the same with the copies that the emitted code makes. */
module TypedRun {
  import opened LoongArch
  import opened TypedIr
  import opened Lowering
  import opened Copies

  // ---------- blocks ----------

  /** The terminator of a block. */
  function Last(f: Fn, b: int): Inst
    requires b in f.code && |f.code[b]| > 0
  {
    f.code[b][|f.code[b]| - 1]
  }

  /** The instructions before the terminator. */
  function Body(f: Fn, b: int): seq<Inst>
    requires b in f.code && |f.code[b]| > 0
  {
    f.code[b][..|f.code[b]| - 1]
  }

  function NonPhis(list: seq<Inst>): seq<Inst> {
    if |list| == 0 then []
    else if list[0].Phi? then NonPhis(list[1..])
    else [list[0]] + NonPhis(list[1..])
  }

  predicate IsTerminator(t: Inst) { t.Br? || t.CondBr? || t.Ret? }

  /** The successors in the order of the branch. */
  function Successors(t: Inst): seq<int> {
    match t
    case Br(l) => [l]
    case CondBr(_, yes, no) => [yes, no]
    case _ => []
  }

  /** The next block, the value returned, or neither. */
  datatype Choice = Goto(l: int) | Leave(v: Opt<int>) | Wrong

  function Choose(sym: nat -> int, env: Env, t: Inst): Choice {
    match t
    case Br(l) => Goto(l)
    case CondBr(c, yes, no) => (match Eval(sym, env, c) case Some(x) => Goto(if x != 0 then yes
        else no) case None => Wrong)
    case Ret(None) => Leave(None)
    case Ret(Some(op)) => (match Eval(sym, env, op) case Some(x) => Leave(Some(x)) case None => Wrong)
    case _ => Wrong
  }

  lemma ChosenIsSuccessor(sym: nat -> int, env: Env, t: Inst)
    ensures Choose(sym, env, t).Goto? ==> (t.Br? || t.CondBr?) && Choose(sym, env, t).l in Successors(t)
    ensures Choose(sym, env, t).Leave? ==> t.Ret? && Successors(t) == []
  {
    hide Eval;
  }

  // ---------- edges ----------

  function FindPhi(list: seq<Inst>, v: nat): (r: Opt<Inst>)
    ensures r.Some? ==> r.value in list && r.value.Phi? && r.value.id == v
    ensures r.None? ==> forall i :: 0 <= i < |list| && list[i].Phi? ==> list[i].id != v
  {
    if |list| == 0 then None
    else if list[0].Phi? && list[0].id == v then Some(list[0])
    else FindPhi(list[1..], v)
  }

  function Incoming(pairs: seq<Pair>, from: int): Opt<Operand> {
    if |pairs| == 0 then None
    else if pairs[0].block == from then Some(pairs[0].value)
    else Incoming(pairs[1..], from)
  }

  function PhiNames(list: seq<Inst>): set<nat> {
    set i | 0 <= i < |list| && list[i].Phi? :: list[i].id
  }

  /** The operand whose value v takes on entering l from b: the one a phi of l lists
      for b, and v itself when it is no phi of l. */
  function Wanted(f: Fn, b: int, l: int, v: nat): Opt<Operand>
    requires l in f.code
  {
    match FindPhi(f.code[l], v)
    case Some(phi) => Incoming(phi.pairs, b)
    case None => Some(Name(v))
  }

  function EdgeValue(f: Fn, sym: nat -> int, env: Env, b: int, l: int, v: nat): Opt<int>
    requires l in f.code
  {
    match Wanted(f, b, l, v)
    case Some(op) => Eval(sym, env, op)
    case None => None
  }

  /** The values on entering l from b: the phis of l take their operands, all read
      before, and nothing else changes. */
  function EdgeEnv(f: Fn, sym: nat -> int, env: Env, b: int, l: int): Env
    requires l in f.code
  {
    map v | v in env.Keys + PhiNames(f.code[l]) && EdgeValue(f, sym, env, b, l, v).Some? ::
        EdgeValue(f, sym, env, b, l, v).value
  }

  lemma EdgeGet(f: Fn, sym: nat -> int, env: Env, b: int, l: int, v: nat)
    requires l in f.code
    ensures Get(EdgeEnv(f, sym, env, b, l), v) == EdgeValue(f, sym, env, b, l, v)
  {
  }

  // ---------- runs ----------

  datatype Outcome = Timeout | Stuck | Returned(v: Opt<int>, mem: Bytes)

  /** The run of a function: in each block the body, then the choice of the
      terminator, then the edge. */
  ghost function RunIr(f: Fn, sym: nat -> int, place: nat -> int, free: int -> bool, b: int, st: IrState,
          fuel: nat): Outcome
    decreases fuel
  {
    if fuel == 0 then Timeout
    else if b !in f.code || |f.code[b]| == 0 then Stuck
    else
      match Steps(f.decls, sym, place, free, NonPhis(Body(f, b)), st)
      case None => Stuck
      case Some(st') =>
        match Choose(sym, st'.env, Last(f, b))
        case Wrong => Stuck
        case Leave(v) => Returned(v, st'.mem)
        case Goto(l) =>
          if l !in f.code then Stuck
          else RunIr(f, sym, place, free, l, st'.(env := EdgeEnv(f, sym, st'.env, b, l)), fuel - 1)
  }

  /** A returning run, one block further. */
  lemma RunIrStep(f: Fn, sym: nat -> int, place: nat -> int, free: int -> bool, b: int, st: IrState, fuel: nat)
    requires RunIr(f, sym, place, free, b, st, fuel).Returned?
    ensures fuel > 0 && b in f.code && |f.code[b]| > 0
    ensures var to := Steps(f.decls, sym, place, free, NonPhis(Body(f, b)), st);
      && to.Some?
      && var choice := Choose(sym, to.value.env, Last(f, b));
      && !choice.Wrong?
      && (choice.Leave? ==> RunIr(f, sym, place, free, b, st, fuel) == Returned(choice.v, to.value.mem))
      && (choice.Goto? ==>
            (&& choice.l in f.code
             && RunIr(f, sym, place, free, b, st, fuel)
                == RunIr(f, sym, place, free, choice.l, to.value.(env := EdgeEnv(f, sym, to.value.env, b, choice.l)),
                    fuel - 1)))
  {
    hide Steps, EdgeEnv, Choose, NonPhis;
  }

  /** And forwards: a block whose body and choice are known. */
  lemma RunIrNext(f: Fn, sym: nat -> int, place: nat -> int, free: int -> bool, b: int, st: IrState, fuel: nat)
    requires fuel > 0 && b in f.code && |f.code[b]| > 0
    requires Steps(f.decls, sym, place, free, NonPhis(Body(f, b)), st).Some?
    ensures var to := Steps(f.decls, sym, place, free, NonPhis(Body(f, b)), st).value;
      var choice := Choose(sym, to.env, Last(f, b));
      && (choice.Leave? ==> RunIr(f, sym, place, free, b, st, fuel) == Returned(choice.v, to.mem))
      && (choice.Goto? && choice.l in f.code ==>
            RunIr(f, sym, place, free, b, st, fuel)
            == RunIr(f, sym, place, free, choice.l, to.(env := EdgeEnv(f, sym, to.env, b, choice.l)), fuel - 1))
  {
    hide Steps, EdgeEnv, Choose, NonPhis;
  }

  // ---------- runs with copies ----------

  predicate SuccessorsFed(f: Fn, t: Inst) {
    forall l :: l in Successors(t) ==> l in f.code && PhisFed(f.code[l])
  }

  /** All copies a block makes before it branches. */
  function AllCopies(f: Fn, b: int, t: Inst): seq<Copy>
    requires SuccessorsFed(f, t)
  {
    match t
    case Br(l) =>
      assert l in Successors(t);
      PhiCopies(f.code[l], b, |f.code[l]|)
    case CondBr(_, yes, no) =>
      assert yes in Successors(t) && no in Successors(t);
      PhiCopies(f.code[yes], b, |f.code[yes]|) + PhiCopies(f.code[no], b, |f.code[no]|)
    case _ => []
  }

  /** The values after the copies of a block. */
  function AfterCopies(f: Fn, sym: nat -> int, b: int, t: Inst, env: Env): Env
    requires SuccessorsFed(f, t)
  {
    var cs := AllCopies(f, b, t);
    Sequential(sym, env, cs, |cs|)
  }

  /** The run the emitted code makes: the copies for all successors, one after the
      other, then the choice, which reads what they left, and no edge. */
  ghost function RunSlots(f: Fn, sym: nat -> int, place: nat -> int, free: int -> bool, b: int, st: IrState,
          fuel: nat): Outcome
    decreases fuel
  {
    if fuel == 0 then Timeout
    else if b !in f.code || |f.code[b]| == 0 || !SuccessorsFed(f, Last(f, b)) then Stuck
    else
      match Steps(f.decls, sym, place, free, NonPhis(Body(f, b)), st)
      case None => Stuck
      case Some(st') =>
        var env := AfterCopies(f, sym, b, Last(f, b), st'.env);
        match Choose(sym, env, Last(f, b))
        case Wrong => Stuck
        case Leave(v) => Returned(v, st'.mem)
        case Goto(l) => RunSlots(f, sym, place, free, l, st'.(env := env), fuel - 1)
  }

  /** A run with copies, one block further. */
  lemma RunSlotsStep(f: Fn, sym: nat -> int, place: nat -> int, free: int -> bool, b: int, st: IrState, fuel: nat)
    requires fuel > 0 && b in f.code && |f.code[b]| > 0 && SuccessorsFed(f, Last(f, b))
    requires Steps(f.decls, sym, place, free, NonPhis(Body(f, b)), st).Some?
    ensures var to := Steps(f.decls, sym, place, free, NonPhis(Body(f, b)), st).value;
      var env := AfterCopies(f, sym, b, Last(f, b), to.env);
      var choice := Choose(sym, env, Last(f, b));
      && (choice.Leave? ==> RunSlots(f, sym, place, free, b, st, fuel) == Returned(choice.v, to.mem))
      && (choice.Goto? ==>
            RunSlots(f, sym, place, free, b, st, fuel)
                == RunSlots(f, sym, place, free, choice.l, to.(env := env), fuel - 1))
  {
    hide Steps, AfterCopies, Choose, NonPhis;
  }

  /** What a returning run with copies went through. */
  lemma RunSlotsBack(f: Fn, sym: nat -> int, place: nat -> int, free: int -> bool, b: int, st: IrState, fuel: nat)
    requires RunSlots(f, sym, place, free, b, st, fuel).Returned?
    ensures fuel > 0 && b in f.code && |f.code[b]| > 0 && SuccessorsFed(f, Last(f, b))
    ensures var to := Steps(f.decls, sym, place, free, NonPhis(Body(f, b)), st);
      to.Some? && !Choose(sym, AfterCopies(f, sym, b, Last(f, b), to.value.env), Last(f, b)).Wrong?
  {
    hide Steps, AfterCopies, Choose, NonPhis;
  }
}
