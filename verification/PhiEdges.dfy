/** When the copies a block makes for all its successors leave what the edge taken
    demands, and when a whole run can rely on that. */
module PhiEdges {
  import opened TypedIr
  import opened FrameLayout
  import opened Lowering
  import opened Copies
  import opened TypedRun

  // ---------- where copies come from ----------

  /** Where a copy of PhiCopies comes from. */
  lemma {:induction false} CopyFrom(list: seq<Inst>, from: int, n: nat, k: nat) returns (i: nat)
    requires n <= |list| && PhisFed(list) && k < |PhiCopies(list, from, n)|
    ensures i < n && list[i].Phi? && PhiCopy(list[i], from) == [PhiCopies(list, from, n)[k]]
  {
    if k < |PhiCopies(list, from, n - 1)| {
      i := CopyFrom(list, from, n - 1, k);
    } else {
      i := n - 1;
    }
  }

  /** And where the copy of a phi is. */
  lemma {:induction false} CopyOf(list: seq<Inst>, from: int, n: nat, i: nat) returns (k: nat)
    requires i < n <= |list| && PhisFed(list) && list[i].Phi? && |PhiCopy(list[i], from)| == 1
    ensures k < |PhiCopies(list, from, n)| && PhiCopies(list, from, n)[k] == PhiCopy(list[i], from)[0]
  {
    if i == n - 1 {
      k := |PhiCopies(list, from, n - 1)|;
    } else {
      k := CopyOf(list, from, n - 1, i);
    }
  }

  /** Every copy of a block belongs to a phi of a successor. */
  lemma CopyOrigin(f: Fn, b: int, t: Inst, k: nat) returns (l: int, i: nat)
    requires SuccessorsFed(f, t) && k < |AllCopies(f, b, t)|
    ensures l in Successors(t) && l in f.code && i < |f.code[l]| && f.code[l][i].Phi? && |f.code[l][i].pairs| > 0
    ensures PhiCopy(f.code[l][i], b) == [AllCopies(f, b, t)[k]]
  {
    hide PhiCopies, PhiCopy, PhisFed;
    match t
    case Br(l1) =>
      assert l1 in Successors(t);
      l := l1;
      i := CopyFrom(f.code[l1], b, |f.code[l1]|, k);
      PhiHasPair(f.code[l], i);
    case CondBr(_, yes, no) =>
      assert yes in Successors(t) && no in Successors(t);
      var first := PhiCopies(f.code[yes], b, |f.code[yes]|);
      if k < |first| {
        l := yes;
        i := CopyFrom(f.code[yes], b, |f.code[yes]|, k);
      } else {
        l := no;
        i := CopyFrom(f.code[no], b, |f.code[no]|, k - |first|);
      }
      PhiHasPair(f.code[l], i);
    case _ =>
  }

  lemma PhiHasPair(list: seq<Inst>, i: nat)
    requires PhisFed(list) && i < |list| && list[i].Phi?
    ensures |list[i].pairs| > 0
  {
  }

  /** Every phi of a successor that has a copy has it among the copies of the block. */
  lemma CopyPresent(f: Fn, b: int, t: Inst, l: int, i: nat) returns (k: nat)
    requires SuccessorsFed(f, t) && l in Successors(t) && l in f.code && i < |f.code[l]| && f.code[l][i].Phi?
        && |f.code[l][i].pairs| > 0
    requires |PhiCopy(f.code[l][i], b)| == 1
    ensures k < |AllCopies(f, b, t)| && AllCopies(f, b, t)[k] == PhiCopy(f.code[l][i], b)[0]
  {
    hide PhiCopies, PhiCopy, PhisFed;
    match t
    case Br(l1) =>
      k := CopyOf(f.code[l], b, |f.code[l]|, i);
    case CondBr(_, yes, no) =>
      k := CopyOf(f.code[l], b, |f.code[l]|, i);
      if l != yes { k := |PhiCopies(f.code[yes], b, |f.code[yes]|)| + k; }
    case _ =>
  }

  /** The same name is never the phi of two places, so copies to it agree. */
  lemma CopiesFunctional(f: Fn, b: int, t: Inst)
    requires SuccessorsFed(f, t) && NamesDistinct(f)
    ensures Functional(AllCopies(f, b, t))
  {
    hide AllCopies, PhiCopies, PhisFed;
    var cs := AllCopies(f, b, t);
    forall j, k | 0 <= j < |cs| && 0 <= k < |cs| && cs[j].dst == cs[k].dst ensures cs[j].src == cs[k].src {
      var l1, i1 := CopyOrigin(f, b, t, j);
      var l2, i2 := CopyOrigin(f, b, t, k);
      CopyTarget(f.code[l1][i1], b);
      CopyTarget(f.code[l2][i2], b);
      SamePlace(f, l1, i1, l2, i2);
    }
  }

  lemma CopyTarget(phi: Inst, b: int)
    requires phi.Phi? && |phi.pairs| > 0
    ensures forall k :: 0 <= k < |PhiCopy(phi, b)| ==> PhiCopy(phi, b)[k].dst == phi.id
  {
  }

  lemma SamePlace(f: Fn, b: int, i: nat, c: int, j: nat)
    requires NamesDistinct(f) && b in f.code && c in f.code && i < |f.code[b]| && j < |f.code[c]|
    requires f.code[b][i].Phi? && f.code[c][j].Phi? && f.code[b][i].id == f.code[c][j].id
    ensures b == c && i == j
  {
  }

  // ---------- the value copied for a pair ----------

  /** The copy made in block b for the phi has the value the phi lists for b. */
  predicate CopyIsIncoming(phi: Inst, b: int)
    requires phi.Phi? && |phi.pairs| > 0
  {
    Incoming(phi.pairs, b).Some? && PhiCopy(phi, b) == [Copy(phi.id, Incoming(phi.pairs, b).value)]
  }

  predicate BlocksApart(pairs: seq<Pair>) {
    forall i, j :: 0 <= i < j < |pairs| ==> pairs[i].block != pairs[j].block
  }

  lemma {:induction false} IncomingAt(pairs: seq<Pair>, i: nat)
    requires i < |pairs| && BlocksApart(pairs)
    ensures Incoming(pairs, pairs[i].block) == Some(pairs[i].value)
    decreases |pairs|
  {
    if i > 0 {
      assert pairs[0].block != pairs[i].block;
      assert pairs[1..][i - 1] == pairs[i];
      IncomingAt(pairs[1..], i - 1);
    }
  }

  /** Every block a phi lists copies the value listed for it exactly when the
      blocks from the second on have the same value. */
  lemma AllIncomingIff(phi: Inst)
    requires phi.Phi? && |phi.pairs| > 0 && BlocksApart(phi.pairs)
    ensures (forall i :: 0 <= i < |phi.pairs| ==> CopyIsIncoming(phi, phi.pairs[i].block))
       <==> (forall i :: 2 <= i < |phi.pairs| ==> phi.pairs[i].value == phi.pairs[1].value)
  {
    var pairs := phi.pairs;
    forall i | 0 <= i < |pairs|
        ensures Incoming(pairs, pairs[i].block) == Some(pairs[i].value) { IncomingAt(pairs, i); }
    forall i | 1 <= i < |pairs| ensures PhiCopy(phi, pairs[i].block) == [Copy(phi.id, pairs[1].value)] {
      assert pairs[0].block != pairs[i].block;
    }
    if exists i :: 2 <= i < |pairs| && pairs[i].value != pairs[1].value {
      var i :| 2 <= i < |pairs| && pairs[i].value != pairs[1].value;
      assert PhiCopy(phi, pairs[i].block)[0].src == pairs[1].value;
      assert !CopyIsIncoming(phi, pairs[i].block);
    }
  }

  // ---------- one edge, for all values ----------

  /** Entering l from b, the slot of v holds what the edge demands. */
  predicate SlotRight(f: Fn, b: int, t: Inst, l: int, v: nat)
    requires SuccessorsFed(f, t) && l in f.code
  {
    var cs := AllCopies(f, b, t);
    var want := Wanted(f, b, l, v);
    want.Some? && SameOperand(Held(cs, |cs|, v), want.value)
  }

  /** The condition of the branch is still what it was. */
  predicate ConditionKept(f: Fn, b: int, t: Inst)
    requires SuccessorsFed(f, t)
  {
    var cs := AllCopies(f, b, t);
    t.CondBr? && t.c.Name? ==> Held(cs, |cs|, t.c.v) == t.c
  }

  function Condition(sym: nat -> int, env: Env, t: Inst): Opt<int> {
    if t.CondBr? then Eval(sym, env, t.c) else None
  }

  lemma SlotValue(f: Fn, sym: nat -> int, b: int, t: Inst, env: Env, v: nat)
    requires SuccessorsFed(f, t)
    ensures var cs := AllCopies(f, b, t); Get(AfterCopies(f, sym, b, t, env), v) == Eval(sym, env, Held(cs, |cs|, v))
  {
    hide AllCopies, Held, Sequential;
    var cs := AllCopies(f, b, t);
    HeldValue(sym, env, cs, |cs|, v);
  }

  lemma SameValue(sym: nat -> int, env: Env, a: Operand, b: Operand)
    requires SameOperand(a, b)
    ensures Eval(sym, env, a) == Eval(sym, env, b)
  {
  }

  lemma EnvExtensional(a: Env, b: Env)
    requires forall v: nat :: Get(a, v) == Get(b, v)
    ensures a == b
  {
    forall v: nat ensures (v in a <==> v in b) && (v in a ==> a[v] == b[v]) {
      assert Get(a, v) == Get(b, v);
    }
    assert a.Keys == b.Keys;
  }

  /** With all slots right the copies are the edge, and the choice is unchanged. */
  lemma EdgeExact(f: Fn, sym: nat -> int, b: int, t: Inst, l: int, env: Env)
    requires SuccessorsFed(f, t) && l in f.code
    requires (forall v: nat :: SlotRight(f, b, t, l, v)) && ConditionKept(f, b, t)
    ensures AfterCopies(f, sym, b, t, env) == EdgeEnv(f, sym, env, b, l)
    ensures Condition(sym, AfterCopies(f, sym, b, t, env), t) == Condition(sym, env, t)
  {
    hide AllCopies, Held, AfterCopies, EdgeEnv, Wanted, SuccessorsFed;
    forall v: nat ensures Get(AfterCopies(f, sym, b, t, env), v) == Get(EdgeEnv(f, sym, env, b, l), v) {
      SlotValue(f, sym, b, t, env, v);
      EdgeGet(f, sym, env, b, l, v);
      assert SlotRight(f, b, t, l, v);
      var cs := AllCopies(f, b, t);
      SameValue(sym, env, Held(cs, |cs|, v), Wanted(f, b, l, v).value);
    }
    EnvExtensional(AfterCopies(f, sym, b, t, env), EdgeEnv(f, sym, env, b, l));
    if t.CondBr? && t.c.Name? { SlotValue(f, sym, b, t, env, t.c.v); }
  }

  /** A wrong slot shows under some symbols and values. */
  lemma SlotWrong(f: Fn, b: int, t: Inst, l: int, v: nat) returns (sym: nat -> int, env: Env)
    requires SuccessorsFed(f, t) && l in f.code && !SlotRight(f, b, t, l, v)
    ensures AfterCopies(f, sym, b, t, env) != EdgeEnv(f, sym, env, b, l)
  {
    hide AllCopies, Held, AfterCopies, EdgeEnv, Wanted, SuccessorsFed;
    var cs := AllCopies(f, b, t);
    var held := Held(cs, |cs|, v);
    match Wanted(f, b, l, v)
    case Some(op) =>
      sym, env := ToldApart(held, op);
      SlotValue(f, sym, b, t, env, v);
      EdgeGet(f, sym, env, b, l, v);
    case None =>
      sym, env := g => 0, if held.Name? then map[held.v := 0] else map[];
      SlotValue(f, sym, b, t, env, v);
      EdgeGet(f, sym, env, b, l, v);
  }

  lemma ConditionWrong(f: Fn, b: int, t: Inst) returns (sym: nat -> int, env: Env)
    requires SuccessorsFed(f, t) && !ConditionKept(f, b, t)
    ensures Condition(sym, AfterCopies(f, sym, b, t, env), t) != Condition(sym, env, t)
  {
    hide AllCopies, Held, AfterCopies, SuccessorsFed;
    var cs := AllCopies(f, b, t);
    sym, env := ToldApart(Held(cs, |cs|, t.c.v), t.c);
    SlotValue(f, sym, b, t, env, t.c.v);
  }

  /** Whatever the symbols and values, the copies leave exactly the values of the
      edge to l and the same condition, if and only if each slot holds the operand
      that the edge demands and the condition its own value. */
  lemma EdgeExactIff(f: Fn, b: int, t: Inst, l: int)
    requires SuccessorsFed(f, t) && l in f.code
    ensures (forall sym: nat -> int, env: Env ::
              && AfterCopies(f, sym, b, t, env) == EdgeEnv(f, sym, env, b, l)
              && Condition(sym, AfterCopies(f, sym, b, t, env), t) == Condition(sym, env, t))
       <==> ((forall v: nat :: SlotRight(f, b, t, l, v)) && ConditionKept(f, b, t))
  {
    hide SlotRight, ConditionKept, AfterCopies, EdgeEnv, Condition, SuccessorsFed;
    if !ConditionKept(f, b, t) {
      var sym, env := ConditionWrong(f, b, t);
    } else if v: nat :| !SlotRight(f, b, t, l, v) {
      var sym, env := SlotWrong(f, b, t, l, v);
    } else {
      forall sym: nat -> int, env: Env
        ensures AfterCopies(f, sym, b, t, env) == EdgeEnv(f, sym, env, b, l)
        ensures Condition(sym, AfterCopies(f, sym, b, t, env), t) == Condition(sym, env, t)
      {
        EdgeExact(f, sym, b, t, l, env);
      }
    }
  }

  // ---------- copies in a safe order ----------

  /** Copies to phis of the other successor change nothing. */
  predicate OthersKept(f: Fn, b: int, t: Inst, l: int)
    requires SuccessorsFed(f, t) && l in f.code
  {
    var cs := AllCopies(f, b, t);
    forall k :: 0 <= k < |cs| && cs[k].dst !in PhiNames(f.code[l]) ==> cs[k].src == Name(cs[k].dst)
  }

  /** Copies to the condition change nothing. */
  predicate ConditionUntouched(f: Fn, b: int, t: Inst)
    requires SuccessorsFed(f, t)
  {
    var cs := AllCopies(f, b, t);
    t.CondBr? ==> forall k :: 0 <= k < |cs| && t.c == Name(cs[k].dst) ==> cs[k].src == Name(cs[k].dst)
  }

  predicate PhisIncoming(f: Fn, b: int, l: int)
    requires l in f.code && PhisFed(f.code[l])
  {
    forall i :: 0 <= i < |f.code[l]| && f.code[l][i].Phi? ==> CopyIsIncoming(f.code[l][i], b)
  }

  lemma FoundAt(f: Fn, l: int, v: nat) returns (i: nat)
    requires l in f.code && FindPhi(f.code[l], v).Some?
    ensures i < |f.code[l]| && f.code[l][i] == FindPhi(f.code[l], v).value && v in PhiNames(f.code[l])
  {
    i :| 0 <= i < |f.code[l]| && f.code[l][i] == FindPhi(f.code[l], v).value;
  }

  /** In a safe order a phi of the block entered has its own value. */
  lemma EnteredRight(f: Fn, b: int, t: Inst, l: int, v: nat)
    requires SuccessorsFed(f, t) && NamesDistinct(f) && OrderSafe(AllCopies(f, b, t)) && l in Successors(t)
        && l in f.code
    requires v in PhiNames(f.code[l]) && FindPhi(f.code[l], v).Some?
    requires var phi := FindPhi(f.code[l], v).value; |phi.pairs| > 0 && CopyIsIncoming(phi, b)
    ensures SlotRight(f, b, t, l, v)
  {
    hide AllCopies, NamesDistinct, OrderSafe, Held, PhisFed;
    var cs := AllCopies(f, b, t);
    var i := FoundAt(f, l, v);
    var k := CopyPresent(f, b, t, l, i);
    CopiesFunctional(f, b, t);
    HeldAt(cs, |cs|, k);
  }

  /** Any other name keeps its value exactly when all copies to it are copies of itself. */
  lemma OtherRightIff(f: Fn, b: int, t: Inst, v: nat)
    requires SuccessorsFed(f, t) && NamesDistinct(f) && OrderSafe(AllCopies(f, b, t))
    ensures var cs := AllCopies(f, b, t);
      Held(cs, |cs|, v) == Name(v) <==> forall k :: 0 <= k < |cs| && cs[k].dst == v ==> cs[k].src == Name(v)
  {
    hide AllCopies, NamesDistinct, OrderSafe, Held, PhisFed, SuccessorsFed;
    var cs := AllCopies(f, b, t);
    CopiesFunctional(f, b, t);
    if k :| 0 <= k < |cs| && cs[k].dst == v && cs[k].src != Name(v) {
      HeldAt(cs, |cs|, k);
    } else {
      HeldOther(cs, |cs|, v);
    }
  }

  lemma NotAPhi(f: Fn, l: int, v: nat)
    requires l in f.code
    ensures FindPhi(f.code[l], v).None? <==> v !in PhiNames(f.code[l])
  {
  }

  /** When the order is safe and each phi of l copies its own value: the copies are
      the edge to l, for all symbols and values, if and only if every copy to a phi
      of the successor not taken, and every copy to the condition, is a copy of a
      value to itself. */
  lemma SafeEdgeIff(f: Fn, b: int, t: Inst, l: int)
    requires SuccessorsFed(f, t) && NamesDistinct(f) && OrderSafe(AllCopies(f, b, t)) && l in Successors(t)
        && l in f.code
    requires PhisFed(f.code[l]) && PhisIncoming(f, b, l)
    ensures (forall sym: nat -> int, env: Env ::
              && AfterCopies(f, sym, b, t, env) == EdgeEnv(f, sym, env, b, l)
              && Condition(sym, AfterCopies(f, sym, b, t, env), t) == Condition(sym, env, t))
       <==> (OthersKept(f, b, t, l) && ConditionUntouched(f, b, t))
  {
    hide AllCopies, NamesDistinct, OrderSafe, Held, AfterCopies, EdgeEnv, Condition, SuccessorsFed, PhisFed,
        CopyIsIncoming;
    EdgeExactIff(f, b, t, l);
    var cs := AllCopies(f, b, t);
    forall v: nat ensures SlotRight(f, b, t, l, v) <==>
        (v in PhiNames(f.code[l]) || forall k :: 0 <= k < |cs| && cs[k].dst == v ==> cs[k].src == Name(v))
    {
      NotAPhi(f, l, v);
      OtherRightIff(f, b, t, v);
      if FindPhi(f.code[l], v).Some? {
        var i := FoundAt(f, l, v);
        PhiHasPair(f.code[l], i);
        EnteredRight(f, b, t, l, v);
      }
    }
    if t.CondBr? && t.c.Name? { OtherRightIff(f, b, t, t.c.v); }
    if OthersKept(f, b, t, l) {
    } else {
      var k :| 0 <= k < |cs| && cs[k].dst !in PhiNames(f.code[l]) && cs[k].src != Name(cs[k].dst);
      assert !SlotRight(f, b, t, l, cs[k].dst);
    }
  }
}
