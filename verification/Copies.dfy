/** The phis of the successors as copies made one after the other, and when that
    equals assigning all phis at once. */
module Copies {
  import opened TypedIr
  import opened Lowering

  // ---------- sequential and parallel ----------

  function Get(env: Env, v: nat): Opt<int> {
    if v in env then Some(env[v]) else None
  }

  /** The first n copies one after the other. */
  function Sequential(sym: nat -> int, env: Env, cs: seq<Copy>, n: nat): Env
    requires n <= |cs|
  {
    if n == 0 then env
    else
      var e := Sequential(sym, env, cs, n - 1);
      Assign(e, cs[n - 1].dst, Eval(sym, e, cs[n - 1].src))
  }

  /** The first n copies all reading the values before. */
  function Parallel(sym: nat -> int, env: Env, cs: seq<Copy>, n: nat): Env
    requires n <= |cs|
  {
    if n == 0 then env
    else Assign(Parallel(sym, env, cs, n - 1), cs[n - 1].dst, Eval(sym, env, cs[n - 1].src))
  }

  /** No copy reads what an earlier one has changed; an earlier copy of a value
      to itself changes nothing. */
  predicate OrderSafe(cs: seq<Copy>) {
    forall i, j :: 0 <= i < j < |cs| ==> SafePair(cs[i], cs[j])
  }

  predicate SafePair(earlier: Copy, later: Copy) {
    later.src == Name(earlier.dst) ==> earlier.src == Name(earlier.dst)
  }

  lemma {:induction false} ParallelOther(sym: nat -> int, env: Env, cs: seq<Copy>, n: nat, v: nat)
    requires n <= |cs| && forall i :: 0 <= i < n ==> cs[i].dst != v
    ensures Get(Parallel(sym, env, cs, n), v) == Get(env, v)
  {
    if n > 0 { ParallelOther(sym, env, cs, n - 1, v); }
  }

  /** All copies to one name have one source. */
  predicate Functional(cs: seq<Copy>) {
    forall i, j :: 0 <= i < |cs| && 0 <= j < |cs| && cs[i].dst == cs[j].dst ==> cs[i].src == cs[j].src
  }

  lemma {:induction false} ParallelAt(sym: nat -> int, env: Env, cs: seq<Copy>, n: nat, k: nat)
    requires k < n <= |cs| && Functional(cs)
    ensures Get(Parallel(sym, env, cs, n), cs[k].dst) == Eval(sym, env, cs[k].src)
  {
    if k < n - 1 { ParallelAt(sym, env, cs, n - 1, k); }
  }

  /** An operand no earlier copy has changed has the value it had before. */
  lemma SourceKept(sym: nat -> int, env: Env, cs: seq<Copy>, j: nat)
    requires j < |cs| && OrderSafe(cs)
    ensures Eval(sym, Parallel(sym, env, cs, j), cs[j].src) == Eval(sym, env, cs[j].src)
  {
    if cs[j].src.Name? {
      var v := cs[j].src.v;
      KeptUpTo(sym, env, cs, j, j, v);
    }
  }

  lemma {:induction false} KeptUpTo(sym: nat -> int, env: Env, cs: seq<Copy>, j: nat, n: nat, v: nat)
    requires n <= j < |cs| && OrderSafe(cs) && cs[j].src == Name(v)
    ensures Get(Parallel(sym, env, cs, n), v) == Get(env, v)
  {
    if n > 0 {
      KeptUpTo(sym, env, cs, j, n - 1, v);
      assert SafePair(cs[n - 1], cs[j]);
    }
  }

  lemma {:induction false} SafeIsParallel(sym: nat -> int, env: Env, cs: seq<Copy>, n: nat)
    requires n <= |cs| && OrderSafe(cs)
    ensures Sequential(sym, env, cs, n) == Parallel(sym, env, cs, n)
  {
    if n > 0 {
      SafeIsParallel(sym, env, cs, n - 1);
      SourceKept(sym, env, cs, n - 1);
    }
  }

  lemma {:induction false} SequentialOther(sym: nat -> int, env: Env, cs: seq<Copy>, n: nat, m: nat, v: nat)
    requires m <= n <= |cs| && forall i :: m <= i < n ==> cs[i].dst != v
    ensures Get(Sequential(sym, env, cs, n), v) == Get(Sequential(sym, env, cs, m), v)
  {
    if n > m { SequentialOther(sym, env, cs, n - 1, m, v); }
  }

  predicate DistinctTargets(cs: seq<Copy>) {
    forall i, j :: 0 <= i < j < |cs| ==> cs[i].dst != cs[j].dst
  }

  /** The first unsafe pair, if there is one. */
  lemma {:induction false} FirstUnsafe(cs: seq<Copy>, n: nat) returns (i: nat, j: nat)
    requires n <= |cs| && !OrderSafe(cs[..n])
    ensures i < j < n && !SafePair(cs[i], cs[j]) && OrderSafe(cs[..j])
  {
    if OrderSafe(cs[..n - 1]) {
      forall a, b | 0 <= a < b < n - 1 ensures SafePair(cs[a], cs[b]) {
        assert SafePair(cs[..n - 1][a], cs[..n - 1][b]);
      }
      i, j :| 0 <= i < j < |cs[..n]| && !SafePair(cs[..n][i], cs[..n][j]);
    } else {
      i, j := FirstUnsafe(cs, n - 1);
    }
  }

  lemma {:induction false} ParallelTakes(sym: nat -> int, env: Env, cs: seq<Copy>, m: nat, n: nat)
    requires n <= m <= |cs|
    ensures Parallel(sym, env, cs[..m], n) == Parallel(sym, env, cs, n)
    ensures Sequential(sym, env, cs[..m], n) == Sequential(sym, env, cs, n)
  {
    if n > 0 { ParallelTakes(sym, env, cs, m, n - 1); }
  }

  lemma UnsafeReads(earlier: Copy, later: Copy)
    requires !SafePair(earlier, later)
    ensures later.src == Name(earlier.dst) && earlier.src != Name(earlier.dst)
  {
  }

  lemma SequentialNext(sym: nat -> int, env: Env, cs: seq<Copy>, j: nat)
    requires j < |cs|
    ensures Get(Sequential(sym, env, cs, j + 1), cs[j].dst) == Eval(sym, Sequential(sym, env, cs, j), cs[j].src)
  {
  }

  /** An unsafe pair has an environment on which the two disagree. */
  lemma UnsafeDiffers(sym: nat -> int, cs: seq<Copy>)
    requires DistinctTargets(cs) && !OrderSafe(cs)
    ensures exists env: Env :: Sequential(sym, env, cs, |cs|) != Parallel(sym, env, cs, |cs|)
  {
    hide Parallel, Sequential, OrderSafe, SafePair;
    assert cs[..|cs|] == cs;
    var i, j := FirstUnsafe(cs, |cs|);
    UnsafeReads(cs[i], cs[j]);
    var v := cs[i].dst;
    var other := Eval(sym, map[], cs[i].src);
    var k := if other == Some(0) then 1 else 0;
    var env: Env := map[v := k];
    assert Eval(sym, env, cs[i].src) == other;
    // The earlier copy has replaced v when the later one reads it.
    SafeIsParallel(sym, env, cs[..j], j);
    ParallelTakes(sym, env, cs, j, j);
    ParallelAt(sym, env, cs, j, i);
    var before := Sequential(sym, env, cs, j);
    assert Get(before, v) == other;
    SequentialNext(sym, env, cs, j);
    SequentialOther(sym, env, cs, |cs|, j + 1, cs[j].dst);
    ParallelAt(sym, env, cs, |cs|, j);
    assert Get(Sequential(sym, env, cs, |cs|), cs[j].dst) == other;
    assert Get(Parallel(sym, env, cs, |cs|), cs[j].dst) == Some(k);
  }

  /** Copying in order assigns all phis at once, whatever the values, exactly when
      no copy reads what an earlier one has changed. */
  lemma SequentialIsParallelIff(sym: nat -> int, cs: seq<Copy>)
    requires DistinctTargets(cs)
    ensures (forall env: Env :: Sequential(sym, env, cs, |cs|) == Parallel(sym, env, cs, |cs|)) <==> OrderSafe(cs)
  {
    if OrderSafe(cs) {
      forall env: Env ensures Sequential(sym, env, cs, |cs|) == Parallel(sym, env, cs, |cs|) {
        SafeIsParallel(sym, env, cs, |cs|);
      }
    } else {
      UnsafeDiffers(sym, cs);
    }
  }

  // ---------- what a slot holds after the copies ----------

  /** The operand that, over the values before, gives what v holds after the first
      n copies. */
  function Held(cs: seq<Copy>, n: nat, v: nat): Operand
    requires n <= |cs|
  {
    if n == 0 then Name(v)
    else if cs[n - 1].dst != v then Held(cs, n - 1, v)
    else
      match cs[n - 1].src
      case Name(w) => Held(cs, n - 1, w)
      case op => op
  }

  lemma {:induction false} HeldValue(sym: nat -> int, env: Env, cs: seq<Copy>, n: nat, v: nat)
    requires n <= |cs|
    ensures Get(Sequential(sym, env, cs, n), v) == Eval(sym, env, Held(cs, n, v))
    decreases n
  {
    if n > 0 {
      if cs[n - 1].dst != v {
        HeldValue(sym, env, cs, n - 1, v);
      } else {
        match cs[n - 1].src
        case Name(w) => HeldValue(sym, env, cs, n - 1, w);
        case _ =>
      }
    }
  }

  lemma {:induction false} HeldOther(cs: seq<Copy>, n: nat, v: nat)
    requires n <= |cs| && forall k :: 0 <= k < n && cs[k].dst == v ==> cs[k].src == Name(v)
    ensures Held(cs, n, v) == Name(v)
  {
    if n > 0 { HeldOther(cs, n - 1, v); }
  }

  /** In a safe order the source of a copy is not changed before it is read. */
  lemma {:induction false} HeldSource(cs: seq<Copy>, n: nat, j: nat, v: nat)
    requires n <= j < |cs| && OrderSafe(cs) && cs[j].src == Name(v)
    ensures Held(cs, n, v) == Name(v)
  {
    if n > 0 {
      assert SafePair(cs[n - 1], cs[j]);
      HeldSource(cs, n - 1, j, v);
    }
  }

  /** So in a safe order each slot copied to holds the source of its copy. */
  lemma {:induction false} HeldAt(cs: seq<Copy>, n: nat, k: nat)
    requires k < n <= |cs| && OrderSafe(cs) && Functional(cs)
    ensures Held(cs, n, cs[k].dst) == cs[k].src
  {
    if cs[n - 1].dst != cs[k].dst {
      HeldAt(cs, n - 1, k);
    } else if cs[k].src.Name? {
      HeldSource(cs, n - 1, n - 1, cs[k].src.v);
    }
  }

  // ---------- operands with the same value ----------

  /** Equal whatever the symbols and values: see ToldApart. */
  predicate SameOperand(a: Operand, b: Operand) {
    a == b || (a.ConstInt? && b.ConstInt? && a.n == b.n)
  }

  /** Symbols and values that tell two operands apart. */
  lemma ToldApart(a: Operand, b: Operand) returns (sym: nat -> int, env: Env)
    requires !SameOperand(a, b)
    ensures Eval(sym, env, a) != Eval(sym, env, b)
  {
    sym, env := g => 0, map[];
    if a.Name? && !b.Name? {
    } else if b.Name? && !a.Name? {
    } else if a.Name? {
      env := map[a.v := 0];
    } else if a.GlobalVar? && b.GlobalVar? {
      var g := a.g;
      sym := h => if h == g then 1 else 0;
    } else {
      var n := if a.ConstInt? then a.n else b.n;
      var x := if n == 0 then 1 else 0;
      sym := h => x;
    }
  }
}
