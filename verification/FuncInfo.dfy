/** The purity analysis: functions with a side effect of their own, then their
    callers by a worklist. */
module FuncInfo {
  import opened Program
  import opened CallGraph

  /** One entry of a function's use list. */
  datatype User = InFunction(fid: nat) | NotInstruction

  type Uses = map<nat, seq<User>>

  /** The use lists name exactly the functions with an instruction that has the
      function as an operand. */
  ghost predicate UsesOk(pr: seq<Proc>, uses: Uses) {
    && (forall g :: 0 <= g < |pr| ==> g in uses)
    && (forall g, k :: g in uses && 0 <= k < |uses[g]| && uses[g][k].InFunction? ==>
          uses[g][k].fid < |pr| && Mentions(pr[uses[g][k].fid], g))
    && (forall f, g {:trigger Mentions(pr[f], g)} ::
        0 <= f < |pr| && 0 <= g < |pr| && Mentions(pr[f], g) ==> InFunction(f) in uses[g])
  }

  ghost function Impure(isPure: map<nat, bool>): set<nat> {
    set f | f in isPure && !isPure[f]
  }

  ghost predicate Distinct(s: seq<nat>) {
    forall i, j :: 0 <= i < j < |s| ==> s[i] != s[j]
  }

  /** The worklist is what is left of the functions entered so far. */
  ghost predicate Entered(pr: seq<Proc>, isPure: map<nat, bool>, entered: seq<nat>, worklist: seq<nat>) {
    && Distinct(entered)
    && |worklist| <= |entered|
    && worklist == entered[|entered| - |worklist|..]
    && (forall f :: f in entered <==> f in Impure(isPure))
    && (forall f :: f in isPure ==> f < |pr|)
  }

  /** Every user of a function taken off the worklist is known to be impure. */
  ghost predicate Propagated(uses: Uses, isPure: map<nat, bool>, worklist: seq<nat>) {
    forall g :: g in Impure(isPure) && g !in worklist ==> UsersImpure(uses, isPure, g)
  }

  ghost predicate UsersImpure(uses: Uses, isPure: map<nat, bool>, g: nat) {
    g in uses && forall f :: InFunction(f) in uses[g] ==> f in Impure(isPure)
  }

  ghost predicate Justified(pr: seq<Proc>, isPure: map<nat, bool>) {
    && (forall f :: 0 <= f < |pr| ==> f in isPure)
    && (forall f :: f in Impure(isPure) ==> CallsImpure(pr, f))
    && (forall f :: 0 <= f < |pr| && TriviallyImpure(pr[f]) ==> f in Impure(isPure))
  }

  lemma DistinctBound(s: seq<nat>, n: nat)
    requires Distinct(s) && forall i :: 0 <= i < |s| ==> s[i] < n
    ensures |s| <= n
  {
    if |s| > 0 {
      assert s[0] < n;
      if n - 1 in s {
        var k :| 0 <= k < |s| && s[k] == n - 1;
        DistinctBound(s[..k] + s[k + 1..], n - 1);
      } else {
        forall i | 0 <= i < |s| ensures s[i] < n - 1 { assert s[i] in s; }
        DistinctBound(s, n - 1);
      }
    }
  }

  lemma EnteredBound(pr: seq<Proc>, isPure: map<nat, bool>, entered: seq<nat>, worklist: seq<nat>)
    requires Entered(pr, isPure, entered, worklist)
    ensures |entered| <= |pr|
  {
    forall i | 0 <= i < |entered| ensures entered[i] < |pr| { assert entered[i] in entered; }
    DistinctBound(entered, |pr|);
  }

  /** The state between two steps of the worklist, while the users of now are visited. */
  ghost predicate Running(pr: seq<Proc>, uses: Uses, isPure: map<nat, bool>, entered: seq<nat>, worklist: seq<nat>,
          now: seq<nat>)
  {
    && Justified(pr, isPure)
    && Entered(pr, isPure, entered, worklist)
    && Propagated(uses, isPure, now + worklist)
  }

  lemma PushKeeps(pr: seq<Proc>, isPure: map<nat, bool>, entered: seq<nat>, worklist: seq<nat>, f: nat)
    requires Entered(pr, isPure, entered, worklist) && f < |pr| && f !in Impure(isPure)
    ensures Entered(pr, isPure[f := false], entered + [f], worklist + [f])
  {
    var now := isPure[f := false];
    assert Impure(now) == Impure(isPure) + {f};
    assert f !in entered;
    forall i | 0 <= i < |entered| ensures entered[i] != f { assert entered[i] in entered; }
    forall h ensures h in entered + [f] <==> h in Impure(now) {}
  }

  /** A function is pure exactly when no chain of calls leads from it to a side effect. */
  ghost predicate ExactlyPure(pr: seq<Proc>, isPure: map<nat, bool>) {
    && (forall f :: f in isPure ==> f < |pr|)
    && (forall f :: 0 <= f < |pr| ==> f in isPure && (isPure[f] <==> !CallsImpure(pr, f)))
  }

  /** An empty worklist leaves exactly the functions that reach no side effect pure. */
  lemma Exact(pr: seq<Proc>, uses: Uses, isPure: map<nat, bool>, entered: seq<nat>)
    requires UsesOk(pr, uses) && Running(pr, uses, isPure, entered, [], [])
    ensures ExactlyPure(pr, isPure)
    ensures Distinct(entered) && forall f :: f in entered <==> 0 <= f < |pr| && CallsImpure(pr, f)
  {
    hide Mentions, TriviallyImpure;
    forall f, g {:trigger Mentions(pr[f], g)} | 0 <= f < |pr| && 0 <= g < |pr| && g in Impure(isPure)
        && Mentions(pr[f], g)
      ensures f in Impure(isPure)
    {
      assert UsersImpure(uses, isPure, g);
    }
    forall f | 0 <= f < |pr| && CallsImpure(pr, f)
      ensures f in Impure(isPure)
    {
      var path :| CallPath(pr, path) && path[0] == f && TriviallyImpure(pr[path[|path| - 1]]);
      ClosedUnderCallers(pr, Impure(isPure), path);
    }
  }

  class FuncInfo {
    var worklist: seq<nat>
    var isPure: map<nat, bool>
    /** Every function put on the worklist, in order. */
    ghost var entered: seq<nat>

    constructor ()
      ensures worklist == [] && isPure == map[] && entered == []
    {
      worklist, isPure, entered := [], map[], [];
    }

    /** What the function does on its own, calls apart. */
    method TrivialMark(pr: seq<Proc>, f: nat)
      requires Ok(pr) && f < |pr|
      modifies this`isPure
      ensures isPure == old(isPure)[f := !TriviallyImpure(pr[f])]
    {
      var p := pr[f];
      if p.IsDeclaration() || p.name == "main" {
        isPure := isPure[f := false];
        return;
      }
      for k := 0 to |p.params|
        invariant isPure == old(isPure)
        invariant forall i :: 0 <= i < k ==> IsScalar(p.params[i])
      {
        if !IsScalar(p.params[k]) {
          isPure := isPure[f := false];
          return;
        }
      }
      for k := 0 to |p.g.blocks|
        invariant isPure == old(isPure)
        invariant forall j, i :: 0 <= j < k && p.g.blocks[j] in p.code && 0 <= i < |p.code[p.g.blocks[j]]| ==>
          !IsSideEffect(p, p.code[p.g.blocks[j]][i])
      {
        var b := p.g.blocks[k];
        assert b in p.g.blocks;
        var list := p.code[b];
        for n := 0 to |list|
          invariant isPure == old(isPure)
          invariant forall i :: 0 <= i < n ==> !IsSideEffect(p, list[i])
        {
          if IsSideEffect(p, list[n]) {
            isPure := isPure[f := false];
            return;
          }
        }
      }
      isPure := isPure[f := true];
    }

    /** Every pure function that uses this one becomes impure and is entered. */
    method Process(pr: seq<Proc>, uses: Uses, func: nat)
      requires UsesOk(pr, uses) && func < |pr| && CallsImpure(pr, func)
      requires Running(pr, uses, isPure, entered, worklist, [func])
      modifies this
      ensures Running(pr, uses, isPure, entered, worklist, [])
      ensures |entered| - |worklist| == old(|entered| - |worklist|)
      ensures UsersImpure(uses, isPure, func) && old(Impure(isPure)) <= Impure(isPure)
    {
      hide *;
      UsersInRange(pr, uses, func);
      var users := uses[func];
      for k := 0 to |users|
        invariant Running(pr, uses, isPure, entered, worklist, [func])
        invariant |entered| - |worklist| == old(|entered| - |worklist|)
        invariant forall i :: 0 <= i < k && users[i].InFunction? ==> users[i].fid in Impure(isPure)
        invariant old(Impure(isPure)) <= Impure(isPure)
      {
        match users[k]
        case InFunction(f) =>
          Marked(pr, uses, isPure, entered, worklist, func, f);
          if isPure[f] {
            isPure := isPure[f := false];
            worklist := worklist + [f];
            entered := entered + [f];
          }
        case NotInstruction =>
      }
      UsersDone(pr, uses, isPure, entered, worklist, func);
    }

    /** A function stays pure exactly when no chain of calls leads from it to a
        side effect; each impure function is entered exactly once. */
    method Run(pr: seq<Proc>, uses: Uses)
      requires Ok(pr) && UsesOk(pr, uses)
      requires worklist == [] && isPure == map[] && entered == []
      modifies this
      ensures ExactlyPure(pr, isPure)
      ensures Distinct(entered) && forall f :: f in entered <==> 0 <= f < |pr| && CallsImpure(pr, f)
      ensures worklist == []
    {
      hide *;
      StartsEmpty(pr);
      for f := 0 to |pr|
        invariant Entered(pr, isPure, entered, worklist) && worklist == entered
        invariant MarkedUpTo(pr, isPure, f)
      {
        ghost var before := isPure;
        TrivialMark(pr, f);
        TrivialStep(pr, before, entered, f);
        if !isPure[f] {
          worklist := worklist + [f];
          entered := entered + [f];
        }
      }
      AllMarked(pr, uses, isPure, entered, worklist);
      while worklist != []
        invariant Running(pr, uses, isPure, entered, worklist, [])
        decreases |pr| - (|entered| - |worklist|)
      {
        TakeFirst(pr, uses, isPure, entered, worklist);
        var now := worklist[0];
        worklist := worklist[1..];
        Process(pr, uses, now);
        EnteredLength(pr, uses, isPure, entered, worklist);
      }
      Exact(pr, uses, isPure, entered);
    }
  }

  // ---------- the steps of the analysis ----------

  /** The first loop has classified the functions below n. */
  ghost predicate MarkedUpTo(pr: seq<Proc>, isPure: map<nat, bool>, n: nat) {
    && n <= |pr|
    && (forall h :: h in isPure <==> 0 <= h < n)
    && (forall h :: 0 <= h < n ==> (isPure[h] <==> !TriviallyImpure(pr[h])))
  }

  lemma StartsEmpty(pr: seq<Proc>)
    ensures Entered(pr, map[], [], []) && MarkedUpTo(pr, map[], 0)
  {
  }

  lemma TrivialStep(pr: seq<Proc>, isPure: map<nat, bool>, entered: seq<nat>, f: nat)
    requires Entered(pr, isPure, entered, entered) && MarkedUpTo(pr, isPure, f) && f < |pr|
    ensures var now := isPure[f := !TriviallyImpure(pr[f])];
      && MarkedUpTo(pr, now, f + 1)
      && (TriviallyImpure(pr[f]) ==> Entered(pr, now, entered + [f], entered + [f]))
      && (!TriviallyImpure(pr[f]) ==> Entered(pr, now, entered, entered))
  {
    if TriviallyImpure(pr[f]) {
      PushKeeps(pr, isPure, entered, entered, f);
    } else {
      assert Impure(isPure[f := true]) == Impure(isPure);
    }
  }

  lemma AllMarked(pr: seq<Proc>, uses: Uses, isPure: map<nat, bool>, entered: seq<nat>, worklist: seq<nat>)
    requires Entered(pr, isPure, entered, worklist) && worklist == entered && MarkedUpTo(pr, isPure, |pr|)
    ensures Running(pr, uses, isPure, entered, worklist, [])
  {
    hide CallsImpure, TriviallyImpure, Propagated, Entered;
    forall f | f in Impure(isPure) ensures CallsImpure(pr, f) { CallsImpureItself(pr, f); }
    assert [] + worklist == entered;
    NothingProcessed(pr, uses, isPure, entered);
  }

  lemma NothingProcessed(pr: seq<Proc>, uses: Uses, isPure: map<nat, bool>, entered: seq<nat>)
    requires Entered(pr, isPure, entered, entered)
    ensures Propagated(uses, isPure, entered)
  {
  }

  lemma TakeFirst(pr: seq<Proc>, uses: Uses, isPure: map<nat, bool>, entered: seq<nat>, worklist: seq<nat>)
    requires Running(pr, uses, isPure, entered, worklist, []) && worklist != []
    ensures Running(pr, uses, isPure, entered, worklist[1..], [worklist[0]])
    ensures worklist[0] < |pr| && CallsImpure(pr, worklist[0])
    ensures |worklist| <= |entered| <= |pr|
  {
    hide CallsImpure, TriviallyImpure, Propagated;
    EnteredBound(pr, isPure, entered, worklist);
    assert worklist[0] in entered by { assert entered[|entered| - |worklist|] == worklist[0]; }
    assert [] + worklist == [worklist[0]] + worklist[1..];
  }

  lemma EnteredLength(pr: seq<Proc>, uses: Uses, isPure: map<nat, bool>, entered: seq<nat>, worklist: seq<nat>)
    requires Running(pr, uses, isPure, entered, worklist, [])
    ensures |worklist| <= |entered| <= |pr|
  {
    EnteredBound(pr, isPure, entered, worklist);
  }

  lemma UsersInRange(pr: seq<Proc>, uses: Uses, func: nat)
    requires UsesOk(pr, uses) && func < |pr|
    ensures func in uses
    ensures forall k :: 0 <= k < |uses[func]| && uses[func][k].InFunction? ==>
      uses[func][k].fid < |pr| && Mentions(pr[uses[func][k].fid], func)
  {
    hide Mentions;
  }

  /** Entering a pure user keeps the state. */
  lemma Marked(pr: seq<Proc>, uses: Uses, isPure: map<nat, bool>, entered: seq<nat>, worklist: seq<nat>, func: nat,
          f: nat)
    requires Running(pr, uses, isPure, entered, worklist, [func])
    requires func < |pr| && CallsImpure(pr, func) && f < |pr| && Mentions(pr[f], func)
    ensures f in isPure && (f in Impure(isPure) <==> !isPure[f])
    ensures isPure[f] ==>
      && Running(pr, uses, isPure[f := false], entered + [f], worklist + [f], [func])
      && Impure(isPure[f := false]) == Impure(isPure) + {f}
  {
    hide CallsImpure, TriviallyImpure, Mentions, Propagated, Entered;
    if isPure[f] {
      PushKeeps(pr, isPure, entered, worklist, f);
      CallsImpureThrough(pr, f, func);
      PushPropagated(uses, isPure, [func] + worklist, f);
      assert ([func] + worklist) + [f] == [func] + (worklist + [f]);
      assert Impure(isPure[f := false]) == Impure(isPure) + {f};
    }
  }

  lemma UsersDone(pr: seq<Proc>, uses: Uses, isPure: map<nat, bool>, entered: seq<nat>, worklist: seq<nat>, func: nat)
    requires Running(pr, uses, isPure, entered, worklist, [func]) && func in uses
    requires forall i :: 0 <= i < |uses[func]| && uses[func][i].InFunction? ==> uses[func][i].fid in Impure(isPure)
    ensures Running(pr, uses, isPure, entered, worklist, []) && UsersImpure(uses, isPure, func)
  {
    hide Justified, Entered, Impure;
    assert UsersImpure(uses, isPure, func) by {
      forall f | InFunction(f) in uses[func] ensures f in Impure(isPure) {
        var i :| 0 <= i < |uses[func]| && uses[func][i] == InFunction(f);
        assert uses[func][i].InFunction?;
      }
    }
    assert [] + worklist == worklist;
  }

  lemma PushPropagated(uses: Uses, isPure: map<nat, bool>, worklist: seq<nat>, f: nat)
    requires Propagated(uses, isPure, worklist) && f !in Impure(isPure)
    ensures Propagated(uses, isPure[f := false], worklist + [f])
  {
    var now := isPure[f := false];
    assert Impure(now) == Impure(isPure) + {f};
    forall g | g in Impure(now) && g !in worklist + [f]
      ensures UsersImpure(uses, now, g)
    {
      assert f in worklist + [f];
      assert forall h :: h in worklist ==> h in worklist + [f];
      assert g != f;
      assert UsersImpure(uses, isPure, g);
    }
  }
}
