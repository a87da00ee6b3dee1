/** The operand lists and use lists that values keep of one another, over a heap
    of objects. Every object can play both parts: one without operands is a plain
    value, one with operands is a user. */
module UseDef {

  /** Operand argNo of user is the value whose list holds this entry. */
  datatype Use = Use(user: Value, argNo: nat)

  // ---------- states of the whole heap ----------

  type UseMap = map<Value, seq<Use>>
  type OpMap = map<Value, seq<Value?>>

  ghost predicate NoDup(s: seq<Use>) {
    forall i, j :: 0 <= i < j < |s| ==> s[i] != s[j]
  }

  /** The use lists hold Use(u, i) exactly once in the list of operand i of u,
      and nothing else. */
  ghost predicate Mirrored(uses: UseMap, ops: OpMap) {
    && uses.Keys == ops.Keys
    && (forall v :: v in uses ==> NoDup(uses[v]))
    && (forall v, e :: v in uses && e in uses[v] ==> IsOperand(ops, e, v))
    && (forall u, i :: u in ops && 0 <= i < |ops[u]| ==> OperandListed(uses, ops[u][i], Use(u, i)))
  }

  ghost predicate IsOperand(ops: OpMap, e: Use, v: Value) {
    e.user in ops && e.argNo < |ops[e.user]| && ops[e.user][e.argNo] == v
  }

  ghost predicate OperandListed(uses: UseMap, v: Value?, e: Use) {
    v != null ==> v in uses && e in uses[v]
  }

  // ---------- lists of uses ----------

  /** The list without every entry equal to e. */
  function Removed(s: seq<Use>, e: Use): seq<Use> {
    if |s| == 0 then []
    else if s[0] == e then Removed(s[1..], e)
    else [s[0]] + Removed(s[1..], e)
  }

  function Filter(s: seq<Use>, p: Use -> bool): seq<Use> {
    if |s| == 0 then []
    else if p(s[0]) then [s[0]] + Filter(s[1..], p)
    else Filter(s[1..], p)
  }

  lemma {:induction false} RemovedHolds(s: seq<Use>, e: Use, x: Use)
    ensures x in Removed(s, e) <==> x in s && x != e
  {
    if |s| > 0 {
      RemovedHolds(s[1..], e, x);
      assert s == [s[0]] + s[1..];
    }
  }

  lemma RemovedMembers(s: seq<Use>, e: Use)
    ensures forall x :: x in Removed(s, e) <==> x in s && x != e
  {
    forall x ensures x in Removed(s, e) <==> x in s && x != e { RemovedHolds(s, e, x); }
  }

  lemma {:induction false} FilterHolds(s: seq<Use>, p: Use -> bool, x: Use)
    ensures x in Filter(s, p) <==> x in s && p(x)
  {
    if |s| > 0 {
      FilterHolds(s[1..], p, x);
      assert s == [s[0]] + s[1..];
    }
  }

  lemma RemovedCons(x: Use, rest: seq<Use>, e: Use)
    ensures Removed([x] + rest, e) == (if x == e then [] else [x]) + Removed(rest, e)
  {
    assert ([x] + rest)[1..] == rest;
    assert [] + Removed(rest, e) == Removed(rest, e);
  }

  lemma {:induction false} RemovedConcat(a: seq<Use>, b: seq<Use>, e: Use)
    ensures Removed(a + b, e) == Removed(a, e) + Removed(b, e)
  {
    if |a| == 0 {
      assert a + b == b;
    } else {
      hide Removed;
      var x, rest := a[0], a[1..];
      RemovedConcat(rest, b, e);
      RemovedCons(x, rest, e);
      RemovedCons(x, rest + b, e);
      assert a == [x] + rest && a + b == [x] + (rest + b);
    }
  }

  lemma {:induction false} RemovedAbsent(s: seq<Use>, e: Use)
    requires e !in s
    ensures Removed(s, e) == s
  {
    if |s| > 0 { RemovedAbsent(s[1..], e); }
  }

  lemma RemovedMiddle(a: seq<Use>, e: Use, b: seq<Use>)
    requires e !in a && e !in b
    ensures Removed(a + ([e] + b), e) == a + b
  {
    hide Removed;
    RemovedConcat(a, [e] + b, e);
    RemovedCons(e, b, e);
    RemovedAbsent(a, e);
    RemovedAbsent(b, e);
    assert [] + b == b;
  }

  lemma SplitAround(s: seq<Use>, k: nat)
    requires NoDup(s) && k < |s|
    ensures s == s[..k] + ([s[k]] + s[k + 1..]) && s[k] !in s[..k] && s[k] !in s[k + 1..]
  {
    var b := s[k + 1..];
    forall i | 0 <= i < |b| ensures b[i] != s[k] {
      assert b[i] == s[k + 1 + i];
    }
  }

  /** In a list without repetition only the entry itself goes. */
  lemma RemovedAt(s: seq<Use>, k: nat)
    requires NoDup(s) && k < |s|
    ensures Removed(s, s[k]) == s[..k] + s[k + 1..]
  {
    hide Removed, NoDup;
    SplitAround(s, k);
    RemovedMiddle(s[..k], s[k], s[k + 1..]);
  }

  lemma {:induction false} RemovedNoDup(s: seq<Use>, e: Use)
    requires NoDup(s)
    ensures NoDup(Removed(s, e))
  {
    if e in s {
      var k :| 0 <= k < |s| && s[k] == e;
      RemovedAt(s, k);
    } else {
      RemovedAbsent(s, e);
    }
  }

  lemma AppendNoDup(s: seq<Use>, e: Use)
    requires NoDup(s) && e !in s
    ensures NoDup(s + [e])
  {
  }

  // ---------- effect of changing one operand ----------

  /** The use lists after entry e leaves the list of v. */
  function Leave(uses: UseMap, v: Value?, e: Use): UseMap {
    if v != null && v in uses then uses[v := Removed(uses[v], e)] else uses
  }

  /** The use lists after entry e joins the list of v. */
  function Join(uses: UseMap, v: Value?, e: Use): UseMap {
    if v != null && v in uses then uses[v := uses[v] + [e]] else uses
  }

  /** The use lists when operand i of u changes from its present value to v. */
  function Moved(uses: UseMap, ops: OpMap, u: Value, i: nat, v: Value?): UseMap
    requires u in ops && i < |ops[u]|
  {
    Join(Leave(uses, ops[u][i], Use(u, i)), v, Use(u, i))
  }

  lemma NotListed(uses: UseMap, ops: OpMap, x: Value, e: Use)
    requires Mirrored(uses, ops) && x in uses && !IsOperand(ops, e, x)
    ensures e !in uses[x]
  {
  }

  lemma MovedList(uses: UseMap, ops: OpMap, u: Value, i: nat, v: Value?, x: Value)
    requires Mirrored(uses, ops) && u in ops && i < |ops[u]| && (v != null ==> v in uses) && x in uses
    ensures var e := Use(u, i);
      x in Moved(uses, ops, u, i, v)
      && Moved(uses, ops, u, i, v)[x] == (if x == v then Removed(uses[x], e) + [e] else Removed(uses[x], e))
  {
    var e := Use(u, i);
    assert OperandListed(uses, ops[u][i], e);
    if x != ops[u][i] {
      NotListed(uses, ops, x, e);
      RemovedAbsent(uses[x], e);
    }
  }

  /** Changing an operand keeps the mirror. */
  lemma SetKeepsMirror(uses: UseMap, ops: OpMap, u: Value, i: nat, v: Value?)
    requires Mirrored(uses, ops) && u in ops && i < |ops[u]| && (v != null ==> v in uses)
    ensures Mirrored(Moved(uses, ops, u, i, v), ops[u := ops[u][i := v]])
  {
    var e := Use(u, i);
    var uses', ops' := Moved(uses, ops, u, i, v), ops[u := ops[u][i := v]];
    assert uses'.Keys == uses.Keys;
    forall x | x in uses' ensures NoDup(uses'[x]) {
      MovedList(uses, ops, u, i, v, x);
      RemovedNoDup(uses[x], e);
      RemovedHolds(uses[x], e, e);
      if x == v { AppendNoDup(Removed(uses[x], e), e); }
    }
    forall x, d | x in uses' && d in uses'[x] ensures IsOperand(ops', d, x) {
      MovedList(uses, ops, u, i, v, x);
      RemovedHolds(uses[x], e, d);
      if d != e { assert IsOperand(ops, d, x); }
    }
    forall w, j | w in ops' && 0 <= j < |ops'[w]| ensures OperandListed(uses', ops'[w][j], Use(w, j)) {
      var y := ops'[w][j];
      if y != null {
        if !(w == u && j == i) {
          assert w in ops && j < |ops[w]| && ops[w][j] == y;
          assert OperandListed(uses, ops[w][j], Use(w, j));
        }
        MovedList(uses, ops, u, i, v, y);
        RemovedHolds(uses[y], e, Use(w, j));
      }
    }
  }

  /** Adding an operand at the end keeps the mirror. */
  lemma AddKeepsMirror(uses: UseMap, ops: OpMap, u: Value, v: Value)
    requires Mirrored(uses, ops) && u in ops && v in uses
    ensures Mirrored(Join(uses, v, Use(u, |ops[u]|)), ops[u := ops[u] + [v]])
  {
    var e := Use(u, |ops[u]|);
    var uses', ops' := Join(uses, v, e), ops[u := ops[u] + [v]];
    assert uses'.Keys == uses.Keys;
    NotListed(uses, ops, v, e);
    AppendNoDup(uses[v], e);
    forall x, d | x in uses' && d in uses'[x] ensures IsOperand(ops', d, x) {
      if !(x == v && d == e) {
        assert d in uses[x];
        assert IsOperand(ops, d, x);
      }
    }
    forall w, j | w in ops' && 0 <= j < |ops'[w]| ensures OperandListed(uses', ops'[w][j], Use(w, j)) {
      if !(w == u && j == |ops[u]|) {
        assert OperandListed(uses, ops[w][j], Use(w, j));
      }
    }
  }

  // ---------- dropping all operands ----------

  lemma {:induction false} FilterRemoved(s: seq<Use>, p: Use -> bool, e: Use)
    ensures Removed(Filter(s, p), e) == Filter(s, x => p(x) && x != e)
  {
    var q := x => p(x) && x != e;
    if |s| > 0 {
      FilterRemoved(s[1..], p, e);
      if p(s[0]) {
        assert ([s[0]] + Filter(s[1..], p))[1..] == Filter(s[1..], p);
      }
    }
  }

  lemma {:induction false} FilterAgrees(s: seq<Use>, p: Use -> bool, q: Use -> bool)
    requires forall i :: 0 <= i < |s| ==> p(s[i]) == q(s[i])
    ensures Filter(s, p) == Filter(s, q)
  {
    if |s| > 0 { FilterAgrees(s[1..], p, q); }
  }

  lemma {:induction false} FilterAll(s: seq<Use>, p: Use -> bool)
    requires forall i :: 0 <= i < |s| ==> p(s[i])
    ensures Filter(s, p) == s
  {
    if |s| > 0 { FilterAll(s[1..], p); }
  }

  lemma {:induction false} FilterNoDup(s: seq<Use>, p: Use -> bool)
    requires NoDup(s)
    ensures NoDup(Filter(s, p))
  {
    if |s| > 0 {
      assert NoDup(s[1..]);
      FilterNoDup(s[1..], p);
      FilterHolds(s[1..], p, s[0]);
    }
  }

  /** Not one of the first n operands of u. */
  function NotBelow(u: Value, n: nat): Use -> bool {
    (e: Use) => !(e.user == u && e.argNo < n)
  }

  /** The use lists without the first n operands of u. */
  function Cut(uses: UseMap, u: Value, n: nat): UseMap {
    map v | v in uses :: Filter(uses[v], NotBelow(u, n))
  }

  lemma CutNone(uses: UseMap, u: Value)
    ensures Cut(uses, u, 0) == uses
  {
    forall v | v in uses ensures Filter(uses[v], NotBelow(u, 0)) == uses[v] {
      FilterAll(uses[v], NotBelow(u, 0));
    }
  }

  lemma CutHit(s: seq<Use>, u: Value, n: nat)
    ensures Removed(Filter(s, NotBelow(u, n)), Use(u, n)) == Filter(s, NotBelow(u, n + 1))
  {
    var q := x => NotBelow(u, n)(x) && x != Use(u, n);
    FilterRemoved(s, NotBelow(u, n), Use(u, n));
    FilterAgrees(s, q, NotBelow(u, n + 1));
  }

  lemma CutMiss(s: seq<Use>, u: Value, n: nat)
    requires Use(u, n) !in s
    ensures Filter(s, NotBelow(u, n)) == Filter(s, NotBelow(u, n + 1))
  {
    FilterAgrees(s, NotBelow(u, n), NotBelow(u, n + 1));
  }

  lemma CutStep(uses: UseMap, ops: OpMap, u: Value, n: nat)
    requires Mirrored(uses, ops) && u in ops && n < |ops[u]|
    ensures Leave(Cut(uses, u, n), ops[u][n], Use(u, n)) == Cut(uses, u, n + 1)
  {
    hide Filter, Removed, NotBelow, Mirrored;
    var e := Use(u, n);
    var y := ops[u][n];
    if y != null { OperandIsListed(uses, ops, u, n); }
    forall v | v in uses
      ensures v == y ==> Removed(Filter(uses[v], NotBelow(u, n)), e) == Filter(uses[v], NotBelow(u, n + 1))
      ensures v != y ==> Filter(uses[v], NotBelow(u, n)) == Filter(uses[v], NotBelow(u, n + 1))
    {
      if v == y {
        CutHit(uses[v], u, n);
      } else {
        NotListed(uses, ops, v, e);
        CutMiss(uses[v], u, n);
      }
    }
  }

  lemma OperandIsListed(uses: UseMap, ops: OpMap, u: Value, n: nat)
    requires Mirrored(uses, ops) && u in ops && n < |ops[u]| && ops[u][n] != null
    ensures ops[u][n] in uses && Use(u, n) in uses[ops[u][n]]
  {
    assert OperandListed(uses, ops[u][n], Use(u, n));
  }

  lemma CutKeepsMirror(uses: UseMap, ops: OpMap, u: Value)
    requires Mirrored(uses, ops) && u in ops
    ensures Mirrored(Cut(uses, u, |ops[u]|), ops[u := []])
  {
    var n := |ops[u]|;
    var uses', ops' := Cut(uses, u, n), ops[u := []];
    forall x | x in uses' ensures NoDup(uses'[x]) { FilterNoDup(uses[x], NotBelow(u, n)); }
    forall x, d | x in uses' && d in uses'[x] ensures IsOperand(ops', d, x) {
      FilterHolds(uses[x], NotBelow(u, n), d);
      assert IsOperand(ops, d, x);
    }
    forall w, j | w in ops' && 0 <= j < |ops'[w]| ensures OperandListed(uses', ops'[w][j], Use(w, j)) {
      assert OperandListed(uses, ops[w][j], Use(w, j));
      if ops[w][j] != null {
        FilterHolds(uses[ops[w][j]], NotBelow(u, n), Use(w, j));
      }
    }
  }

  // ---------- removing one operand ----------

  /** The use lists after the operands from idx + 1 up to below k each moved
      their entry one place down. */
  function Shifted(uses: UseMap, u: Value, vs: seq<Value?>, idx: nat, k: nat): UseMap
    requires k <= |vs|
  {
    if k <= idx + 1 then uses
    else Join(Leave(Shifted(uses, u, vs, idx, k - 1), vs[k - 1], Use(u, k - 1)), vs[k - 1], Use(u, k - 2))
  }

  /** Which entries of user u the list of v holds after the moves up to k. */
  predicate ShiftedHolds(vs: seq<Value?>, idx: nat, k: nat, v: Value, n: nat) {
    if n < idx || n >= k then n < |vs| && vs[n] == v
    else if n == idx then n < |vs| && (vs[n] == v || (idx + 1 < k && idx + 1 < |vs| && vs[idx + 1] == v))
    else n + 1 < k && n + 1 < |vs| && vs[n + 1] == v
  }

  /** The list of v: the entries of other users stay, those of u are as moved. */
  ghost predicate ShiftedList(was: seq<Use>, now: seq<Use>, u: Value, vs: seq<Value?>, idx: nat, k: nat, v: Value) {
    && (forall e :: e in now && e.user == u ==> ShiftedHolds(vs, idx, k, v, e.argNo))
    && (forall e :: e in now && e.user != u ==> e in was)
    && (forall e :: e in was && e.user != u ==> e in now)
    && (forall n: nat {:trigger ShiftedHolds(vs, idx, k, v, n)} :: ShiftedHolds(vs, idx, k, v, n) ==> Use(u, n) in now)
  }

  ghost predicate ShiftedOk(uses: UseMap, now: UseMap, u: Value, vs: seq<Value?>, idx: nat, k: nat) {
    && now.Keys == uses.Keys
    && (forall v :: v in uses ==> ShiftedList(uses[v], now[v], u, vs, idx, k, v))
  }

  ghost predicate AllNoDup(uses: UseMap) {
    forall v :: v in uses ==> NoDup(uses[v])
  }

  lemma ShiftStart(uses: UseMap, ops: OpMap, u: Value, idx: nat)
    requires Mirrored(uses, ops) && u in ops && idx < |ops[u]| && forall i :: idx <= i < |ops[u]| ==> ops[u][i] != null
    ensures ShiftedOk(uses, uses, u, ops[u], idx, idx + 1) && AllNoDup(uses)
  {
    var vs := ops[u];
    forall v | v in uses ensures ShiftedList(uses[v], uses[v], u, vs, idx, idx + 1, v) {
      forall n: nat | ShiftedHolds(vs, idx, idx + 1, v, n) ensures Use(u, n) in uses[v] {
        assert vs[n] == v;
        OperandIsListed(uses, ops, u, n);
      }
      forall e: Use | e in uses[v] && e.user == u ensures ShiftedHolds(vs, idx, idx + 1, v, e.argNo) {
        assert IsOperand(ops, e, v);
      }
    }
  }

  lemma {:induction false} ShiftedFacts(uses: UseMap, ops: OpMap, u: Value, idx: nat, k: nat)
    requires Mirrored(uses, ops) && u in ops && idx < k <= |ops[u]| && forall i ::
        idx <= i < |ops[u]| ==> ops[u][i] != null
    ensures ShiftedOk(uses, Shifted(uses, u, ops[u], idx, k), u, ops[u], idx, k)
    ensures (idx + 1 < |ops[u]| ==> ops[u][idx] != ops[u][idx + 1]) ==> AllNoDup(Shifted(uses, u, ops[u], idx, k))
  {
    hide Mirrored, ShiftedOk, AllNoDup, Join, Leave;
    var vs := ops[u];
    if k == idx + 1 {
      ShiftStart(uses, ops, u, idx);
    } else {
      ShiftedFacts(uses, ops, u, idx, k - 1);
      OperandIsListed(uses, ops, u, k - 1);
      ShiftStep(uses, Shifted(uses, u, vs, idx, k - 1), u, vs, idx, k, vs[k - 1]);
    }
  }

  /** One move down: y is the operand at k - 1. */
  lemma ShiftStep(uses: UseMap, before: UseMap, u: Value, vs: seq<Value?>, idx: nat, k: nat, y: Value)
    requires idx + 1 < k <= |vs| && vs[k - 1] == y && y in uses
    requires ShiftedOk(uses, before, u, vs, idx, k - 1)
    ensures var now := Join(Leave(before, y, Use(u, k - 1)), y, Use(u, k - 2));
      ShiftedOk(uses, now, u, vs, idx, k) && (vs[idx] != vs[idx + 1] && AllNoDup(before) ==> AllNoDup(now))
  {
    hide ShiftedList, NoDup, Removed;
    var now := Join(Leave(before, y, Use(u, k - 1)), y, Use(u, k - 2));
    forall v | v in uses
      ensures ShiftedList(uses[v], now[v], u, vs, idx, k, v)
      ensures vs[idx] != vs[idx + 1] && NoDup(before[v]) ==> NoDup(now[v])
    {
      if v == y {
        ShiftHit(uses[v], before[v], u, vs, idx, k, v);
      } else {
        ShiftMiss(uses[v], before[v], u, vs, idx, k, v);
      }
    }
  }

  lemma ShiftMiss(was: seq<Use>, before: seq<Use>, u: Value, vs: seq<Value?>, idx: nat, k: nat, v: Value)
    requires idx + 1 < k <= |vs| && vs[k - 1] != v && ShiftedList(was, before, u, vs, idx, k - 1, v)
    ensures ShiftedList(was, before, u, vs, idx, k, v)
  {
    forall n: nat ensures ShiftedHolds(vs, idx, k, v, n) == ShiftedHolds(vs, idx, k - 1, v, n) {}
  }

  lemma ShiftHit(was: seq<Use>, before: seq<Use>, u: Value, vs: seq<Value?>, idx: nat, k: nat, v: Value)
    requires idx + 1 < k <= |vs| && vs[k - 1] == v && ShiftedList(was, before, u, vs, idx, k - 1, v)
    ensures var now := Removed(before, Use(u, k - 1)) + [Use(u, k - 2)];
      ShiftedList(was, now, u, vs, idx, k, v) && (vs[idx] != vs[idx + 1] && NoDup(before) ==> NoDup(now))
  {
    var out, into := Use(u, k - 1), Use(u, k - 2);
    var short := Removed(before, out);
    RemovedMembers(before, out);
    var now := short + [into];
    forall e: Use | e in now && e.user != u ensures e in was {
      RemovedHolds(before, out, e);
      assert e in short;
    }
    forall n: nat ensures ShiftedHolds(vs, idx, k, v, n) <==>
        n == k - 2 || (n != k - 1 && ShiftedHolds(vs, idx, k - 1, v, n)) {}
    if vs[idx] != vs[idx + 1] && NoDup(before) {
      RemovedNoDup(before, out);
      assert !ShiftedHolds(vs, idx, k - 1, v, k - 2);
      assert into !in before;
      AppendNoDup(short, into);
    }
  }

  function WithoutAt(vs: seq<Value?>, idx: nat): seq<Value?>
    requires idx < |vs|
  {
    vs[..idx] + vs[idx + 1..]
  }

  /** The use lists remove_operand leaves. */
  function AfterRemove(uses: UseMap, u: Value, vs: seq<Value?>, idx: nat): UseMap
    requires idx < |vs|
  {
    Leave(Shifted(uses, u, vs, idx, |vs|), vs[idx], Use(u, idx))
  }

  /** Removing an operand keeps the mirror exactly when it is the last one or
      the operand after it is a different value. */
  lemma RemoveMirrorIff(uses: UseMap, ops: OpMap, u: Value, idx: nat)
    requires Mirrored(uses, ops) && u in ops && idx < |ops[u]| && forall i :: idx <= i < |ops[u]| ==> ops[u][i] != null
    ensures Mirrored(AfterRemove(uses, u, ops[u], idx), ops[u := WithoutAt(ops[u], idx)])
      <==> idx + 1 == |ops[u]| || ops[u][idx] != ops[u][idx + 1]
  {
    var vs := ops[u];
    var n := |vs|;
    ShiftedFacts(uses, ops, u, idx, n);
    var shifted := Shifted(uses, u, vs, idx, n);
    var uses', ops' := AfterRemove(uses, u, vs, idx), ops[u := WithoutAt(vs, idx)];
    assert OperandListed(uses, vs[idx], Use(u, idx));
    if idx + 1 < n && vs[idx] == vs[idx + 1] {
      var y: Value := vs[idx];
      assert ops'[u][idx] == y && uses'[y] == Removed(shifted[y], Use(u, idx));
      RemovedHolds(shifted[y], Use(u, idx), Use(u, idx));
      assert !OperandListed(uses', ops'[u][idx], Use(u, idx));
    } else {
      RemoveKeepsMirror(uses, ops, u, idx, shifted);
    }
  }

  /** A user with the same value twice: removing the first operand also drops
      the entry of the second. */
  lemma RemoveTwinBreaks(u: Value, v: Value)
    requires u != v
    ensures var uses: UseMap, ops: OpMap := map[u := [], v := [Use(u, 0), Use(u, 1)]], map[u := [v, v], v := []];
      && Mirrored(uses, ops)
      && v in AfterRemove(uses, u, [v, v], 0) && AfterRemove(uses, u, [v, v], 0)[v] == []
      && !Mirrored(AfterRemove(uses, u, [v, v], 0), ops[u := WithoutAt([v, v], 0)])
  {
    var uses: UseMap, ops: OpMap := map[u := [], v := [Use(u, 0), Use(u, 1)]], map[u := [v, v], v := []];
    var twice: seq<Value?> := [v, v];
    assert ops[u] == twice;
    assert uses[v][0] in uses[v] && uses[v][1] in uses[v];
    RemoveMirrorIff(uses, ops, u, 0);
    var e0, e1 := Use(u, 0), Use(u, 1);
    assert e0 != e1;
    RemovedOne(e0, e1);
    assert Removed(uses[v], e1) == [e0];
    assert [e0] + [e0] == [e0, e0];
    assert Shifted(uses, u, twice, 0, 1) == uses;
    var moved := Shifted(uses, u, twice, 0, 2);
    assert moved[v] == [e0, e0];
  }

  lemma RemovedOne(a: Use, b: Use)
    requires a != b
    ensures Removed([a, b], b) == [a] && Removed([a, a], a) == []
  {
    assert [a, b][1..] == [b] && [a, a][1..] == [a] && [b][1..] == [] && [a][1..] == [];
    assert Removed([b], b) == Removed([b][1..], b) && Removed([a], a) == Removed([a][1..], a);
  }

  lemma RemoveKeepsMirror(uses: UseMap, ops: OpMap, u: Value, idx: nat, shifted: UseMap)
    requires Mirrored(uses, ops) && u in ops && idx < |ops[u]| && forall i :: idx <= i < |ops[u]| ==> ops[u][i] != null
    requires idx + 1 == |ops[u]| || ops[u][idx] != ops[u][idx + 1]
    requires ShiftedOk(uses, shifted, u, ops[u], idx, |ops[u]|) && AllNoDup(shifted)
    ensures Mirrored(Leave(shifted, ops[u][idx], Use(u, idx)), ops[u := WithoutAt(ops[u], idx)])
  {
    hide Removed, ShiftedList, NoDup;
    var vs := ops[u];
    var y: Value := vs[idx];
    OperandIsListed(uses, ops, u, idx);
    var uses', ops' := Leave(shifted, y, Use(u, idx)), ops[u := WithoutAt(vs, idx)];
    assert uses'[y] == Removed(shifted[y], Use(u, idx));
    assert forall x :: x in uses && x != y ==> uses'[x] == shifted[x];
    hide Leave;
    forall x | x in uses' ensures NoDup(uses'[x]) {
      RemovedNoDup(shifted[x], Use(u, idx));
    }
    forall x, d: Use | x in uses' && d in uses'[x] ensures IsOperand(ops', d, x) {
      RemovedHolds(shifted[x], Use(u, idx), d);
      assert d in shifted[x] && !(x == y && d == Use(u, idx));
      RemainingIsOperand(uses, ops, u, idx, shifted, x, d);
    }
    forall w, j | w in ops' && 0 <= j < |ops'[w]| ensures OperandListed(uses', ops'[w][j], Use(w, j)) {
      var z := ops'[w][j];
      if z != null {
        RemainingListed(uses, ops, u, idx, shifted, w, j);
        if z == y { RemovedIn(shifted[z], Use(u, idx), Use(w, j)); }
      }
    }
  }

  lemma RemovedIn(s: seq<Use>, e: Use, x: Use)
    requires x in s && x != e
    ensures x in Removed(s, e)
  {
    RemovedHolds(s, e, x);
  }

  lemma RemainingIsOperand(uses: UseMap, ops: OpMap, u: Value, idx: nat, shifted: UseMap, x: Value, d: Use)
    requires Mirrored(uses, ops) && u in ops && idx < |ops[u]| && x in uses
    requires ShiftedOk(uses, shifted, u, ops[u], idx, |ops[u]|)
    requires d in shifted[x] && !(x == ops[u][idx] && d == Use(u, idx))
    ensures IsOperand(ops[u := WithoutAt(ops[u], idx)], d, x)
  {
    var vs := ops[u];
    assert ShiftedList(uses[x], shifted[x], u, vs, idx, |vs|, x);
    if d.user == u {
      assert ShiftedHolds(vs, idx, |vs|, x, d.argNo);
    } else {
      assert IsOperand(ops, d, x);
    }
  }

  lemma RemainingListed(uses: UseMap, ops: OpMap, u: Value, idx: nat, shifted: UseMap, w: Value, j: nat)
    requires Mirrored(uses, ops) && u in ops && idx < |ops[u]| && w in ops
    requires idx + 1 == |ops[u]| || ops[u][idx] != ops[u][idx + 1]
    requires ShiftedOk(uses, shifted, u, ops[u], idx, |ops[u]|)
    requires var ops' := ops[u := WithoutAt(ops[u], idx)]; j < |ops'[w]| && ops'[w][j] != null
    ensures var z := ops[u := WithoutAt(ops[u], idx)][w][j];
      z in uses && Use(w, j) in shifted[z] && !(z == ops[u][idx] && w == u && j == idx)
  {
    hide Mirrored, NoDup;
    var vs := ops[u];
    var z := ops[u := WithoutAt(vs, idx)][w][j];
    if w == u {
      var at := if j < idx then j else j + 1;
      assert z == vs[at];
      OperandIsListed(uses, ops, u, at);
      assert ShiftedList(uses[z], shifted[z], u, vs, idx, |vs|, z);
      assert ShiftedHolds(vs, idx, |vs|, z, j);
    } else {
      OperandIsListed(uses, ops, w, j);
      assert ShiftedList(uses[z], shifted[z], u, vs, idx, |vs|, z);
    }
  }

  // ---------- replacing a value ----------

  /** The use lists when v keeps the entries stay and v2 has received the entries moved. */
  function Handed(uses: UseMap, v: Value, v2: Value?, stay: seq<Use>, moved: seq<Use>): UseMap {
    var left := uses[v := stay];
    if v2 != null && v2 in uses then left[v2 := uses[v2] + moved] else left
  }

  /** The operands when those listed in moved have become v2. */
  function Redirected(ops: OpMap, moved: seq<Use>, v2: Value?): OpMap {
    map u | u in ops :: seq(|ops[u]|, i requires 0 <= i < |ops[u]| => if Use(u, i) in moved then v2 else ops[u][i])
  }

  lemma HandedNone(uses: UseMap, ops: OpMap, v: Value, v2: Value?)
    requires v in uses && v2 != v
    ensures Handed(uses, v, v2, uses[v], []) == uses && Redirected(ops, [], v2) == ops
  {
    if v2 != null && v2 in uses { assert uses[v2] + [] == uses[v2]; }
    forall u | u in ops ensures Redirected(ops, [], v2)[u] == ops[u] {}
  }

  /** Setting the operand behind the entry that follows kept hands that entry over. */
  lemma HandStep(uses: UseMap, ops: OpMap, v: Value, v2: Value?, kept: seq<Use>, e: Use, rest: seq<Use>,
          moved: seq<Use>)
    requires v in uses && v2 != v && (v2 != null ==> v2 in uses)
    requires var now := Handed(uses, v, v2, kept + [e] + rest, moved); Mirrored(now, Redirected(ops, moved, v2))
    requires e !in moved
    ensures var now, nowOps := Handed(uses, v, v2, kept + [e] + rest, moved), Redirected(ops, moved, v2);
      && e.user in nowOps && e.argNo < |nowOps[e.user]| && nowOps[e.user][e.argNo] == v
      && Moved(now, nowOps, e.user, e.argNo, v2) == Handed(uses, v, v2, kept + rest, moved + [e])
      && nowOps[e.user := nowOps[e.user][e.argNo := v2]] == Redirected(ops, moved + [e], v2)
  {
    var now, nowOps := Handed(uses, v, v2, kept + [e] + rest, moved), Redirected(ops, moved, v2);
    var s := kept + [e] + rest;
    assert now[v] == s && s[|kept|] == e;
    assert e in now[v];
    assert IsOperand(nowOps, e, v);
    HandLists(uses, now, v, v2, kept, e, rest, moved);
    MovedIs(now, nowOps, e.user, e.argNo, v2);
    hide Mirrored, Handed, Moved;
    var next := nowOps[e.user := nowOps[e.user][e.argNo := v2]];
    forall u | u in ops ensures next[u] == Redirected(ops, moved + [e], v2)[u] {
      forall i | 0 <= i < |ops[u]| ensures next[u][i] == Redirected(ops, moved + [e], v2)[u][i] {
        assert Use(u, i) in moved + [e] <==> Use(u, i) in moved || Use(u, i) == e;
      }
    }
  }

  lemma MovedIs(uses: UseMap, ops: OpMap, u: Value, i: nat, v: Value?)
    requires u in ops && i < |ops[u]|
    ensures Moved(uses, ops, u, i, v) == Join(Leave(uses, ops[u][i], Use(u, i)), v, Use(u, i))
  {
  }

  lemma HandLists(uses: UseMap, now: UseMap, v: Value, v2: Value?, kept: seq<Use>, e: Use, rest: seq<Use>,
          moved: seq<Use>)
    requires v in uses && v2 != v && (v2 != null ==> v2 in uses)
    requires now == Handed(uses, v, v2, kept + [e] + rest, moved) && NoDup(now[v])
    ensures Join(Leave(now, v, e), v2, e) == Handed(uses, v, v2, kept + rest, moved + [e])
  {
    var s := kept + [e] + rest;
    RemovedAt(s, |kept|);
    assert s[..|kept|] == kept && s[|kept| + 1..] == rest && s[|kept|] == e;
    assert Removed(now[v], e) == kept + rest;
    if v2 != null {
      assert now[v2] + [e] == uses[v2] + (moved + [e]);
    }
  }

  /** The operands with v replaced by v2 everywhere. */
  function Replaced(ops: OpMap, v: Value, v2: Value?): OpMap {
    map u | u in ops :: seq(|ops[u]|, i requires 0 <= i < |ops[u]| => if ops[u][i] == v then v2 else ops[u][i])
  }

  /** With all entries moved, exactly the operands that were v have changed. */
  lemma RedirectedExactly(uses: UseMap, ops: OpMap, v: Value, v2: Value?)
    requires Mirrored(uses, ops) && v in uses
    ensures Redirected(ops, uses[v], v2) == Replaced(ops, v, v2)
  {
    hide Mirrored;
    forall u, i | u in ops && 0 <= i < |ops[u]| ensures Use(u, i) in uses[v] <==> ops[u][i] == v {
      if ops[u][i] == v {
        OperandIsListed(uses, ops, u, i);
      } else {
        NotListed(uses, ops, v, Use(u, i));
      }
    }
    forall u | u in ops ensures Redirected(ops, uses[v], v2)[u] == Replaced(ops, v, v2)[u] {}
  }

  lemma ReplacedItself(ops: OpMap, v: Value)
    ensures Replaced(ops, v, v) == ops
  {
    forall u | u in ops ensures Replaced(ops, v, v)[u] == ops[u] {}
  }

  /** Only the uses that pass the test are replaced. */
  function ReplacedIf(ops: OpMap, v: Value, v2: Value?, p: Use -> bool): OpMap {
    map u | u in ops ::
        seq(|ops[u]|, i requires 0 <= i < |ops[u]| => if ops[u][i] == v && p(Use(u, i)) then v2 else ops[u][i])
  }

  lemma RedirectedSome(uses: UseMap, ops: OpMap, v: Value, v2: Value?, p: Use -> bool)
    requires Mirrored(uses, ops) && v in uses
    ensures Redirected(ops, Filter(uses[v], p), v2) == ReplacedIf(ops, v, v2, p)
  {
    hide Mirrored;
    forall u, i | u in ops && 0 <= i < |ops[u]| ensures Use(u, i) in Filter(uses[v], p) <==>
        ops[u][i] == v && p(Use(u, i)) {
      FilterHolds(uses[v], p, Use(u, i));
      if ops[u][i] == v {
        OperandIsListed(uses, ops, u, i);
      } else {
        NotListed(uses, ops, v, Use(u, i));
      }
    }
    forall u | u in ops ensures Redirected(ops, Filter(uses[v], p), v2)[u] == ReplacedIf(ops, v, v2, p)[u] {}
  }

  lemma FilterCons(x: Use, rest: seq<Use>, p: Use -> bool)
    ensures Filter([x] + rest, p) == (if p(x) then [x] else []) + Filter(rest, p)
  {
    assert ([x] + rest)[1..] == rest;
    assert [] + Filter(rest, p) == Filter(rest, p);
  }

  lemma {:induction false} FilterConcat(a: seq<Use>, b: seq<Use>, p: Use -> bool)
    ensures Filter(a + b, p) == Filter(a, p) + Filter(b, p)
  {
    if |a| == 0 {
      assert a + b == b;
    } else {
      hide Filter;
      var x, rest := a[0], a[1..];
      FilterConcat(rest, b, p);
      FilterCons(x, rest, p);
      FilterCons(x, rest + b, p);
      assert a == [x] + rest && a + b == [x] + (rest + b);
    }
  }

  /** One more entry of the list is looked at. */
  lemma FilterNext(s: seq<Use>, k: nat, p: Use -> bool)
    requires k < |s|
    ensures Filter(s[..k + 1], p) == Filter(s[..k], p) + (if p(s[k]) then [s[k]] else [])
  {
    assert s[..k + 1] == s[..k] + [s[k]];
    FilterConcat(s[..k], [s[k]], p);
    assert Filter([s[k]], p) == if p(s[k]) then [s[k]] else [] by {
      assert [s[k]][1..] == [];
    }
  }

  lemma FilterAbsent(s: seq<Use>, k: nat, p: Use -> bool)
    requires NoDup(s) && k < |s|
    ensures s[k] !in Filter(s[..k], p)
  {
    FilterHolds(s[..k], p, s[k]);
  }

  // ---------- the heap ----------

  ghost function Uses(heap: set<Value>): UseMap
    reads heap
  {
    map v | v in heap :: v.useList
  }

  ghost function Ops(heap: set<Value>): OpMap
    reads heap
  {
    map v | v in heap :: v.operands
  }

  /** The mirror between the operand lists and the use lists of a heap of values. */
  ghost predicate Mirror(heap: set<Value>)
    reads heap
  {
    Mirrored(Uses(heap), Ops(heap))
  }

  class Value {
    var useList: seq<Use>
    var operands: seq<Value?>

    constructor ()
      ensures useList == [] && operands == []
    {
      useList, operands := [], [];
    }

    /** The entry is appended. */
    method AddUse(user: Value, argNo: nat, ghost heap: set<Value>)
      requires this in heap
      modifies this`useList
      ensures Uses(heap) == Join(old(Uses(heap)), this, Use(user, argNo)) && Ops(heap) == old(Ops(heap))
    {
      useList := useList + [Use(user, argNo)];
    }

    /** Remove every entry for this operand of this user. */
    method RemoveUse(user: Value, argNo: nat, ghost heap: set<Value>)
      requires this in heap
      modifies this`useList
      ensures Uses(heap) == Leave(old(Uses(heap)), this, Use(user, argNo)) && Ops(heap) == old(Ops(heap))
    {
      var target := Use(user, argNo);
      var kept: seq<Use> := [];
      var k := 0;
      while k < |useList|
        invariant 0 <= k <= |useList| && useList == old(useList)
        invariant kept + Removed(useList[k..], target) == Removed(useList, target)
      {
        assert useList[k..][1..] == useList[k + 1..];
        if useList[k] != target {
          kept := kept + [useList[k]];
        }
        k := k + 1;
      }
      assert kept + [] == kept && useList[k..] == [];
      useList := kept;
    }

    /** Operand i becomes v, and both use lists follow. */
    method SetOperand(i: nat, v: Value?, ghost heap: set<Value>)
      requires this in heap && Mirror(heap) && i < |operands| && (v != null ==> v in heap)
      modifies heap
      ensures Mirror(heap)
      ensures Uses(heap) == Moved(old(Uses(heap)), old(Ops(heap)), this, i, v)
      ensures Ops(heap) == old(Ops(heap))[this := old(operands)[i := v]]
    {
      hide Removed, Mirrored, Leave, Join;
      ghost var uses, ops := Uses(heap), Ops(heap);
      var was := operands[i];
      LeaveNull(uses, Use(this, i));
      if was != null {
        OperandIsListed(uses, ops, this, i);
        was.RemoveUse(this, i, heap);
      }
      LeaveNull(Uses(heap), Use(this, i));
      if v != null {
        v.AddUse(this, i, heap);
      }
      assert operands == Ops(heap)[this] == ops[this];
      ChangeOperands(operands[i := v], heap);
      SetKeepsMirror(uses, ops, this, i, v);
    }

    /** Write the operand list; no use list is touched. */
    method ChangeOperands(vs: seq<Value?>, ghost heap: set<Value>)
      requires this in heap
      modifies this`operands
      ensures Uses(heap) == old(Uses(heap)) && Ops(heap) == old(Ops(heap))[this := vs]
    {
      operands := vs;
    }

    /** One more operand at the end. */
    method AddOperand(v: Value, ghost heap: set<Value>)
      requires this in heap && v in heap && Mirror(heap)
      modifies heap
      ensures Mirror(heap)
      ensures Uses(heap) == Join(old(Uses(heap)), v, Use(this, |old(operands)|))
      ensures Ops(heap) == old(Ops(heap))[this := old(operands) + [v]]
    {
      hide Removed, Mirrored, Leave, Join;
      ghost var uses, ops := Uses(heap), Ops(heap);
      v.AddUse(this, |operands|, heap);
      assert operands == Ops(heap)[this] == ops[this];
      ChangeOperands(operands + [v], heap);
      AddKeepsMirror(uses, ops, this, v);
    }

    /** No operand is left, and no list mentions this user any more. */
    method RemoveAllOperands(ghost heap: set<Value>)
      requires this in heap && Mirror(heap)
      modifies heap
      ensures Mirror(heap)
      ensures Uses(heap) == Cut(old(Uses(heap)), this, |old(operands)|)
      ensures Ops(heap) == old(Ops(heap))[this := []]
    {
      hide Removed, Mirrored, Cut, Leave;
      ghost var uses, ops := Uses(heap), Ops(heap);
      CutNone(uses, this);
      var i := 0;
      while i != |operands|
        invariant 0 <= i <= |operands| && Ops(heap) == ops && operands == ops[this]
        invariant Uses(heap) == Cut(uses, this, i)
        decreases |operands| - i
      {
        CutStep(uses, ops, this, i);
        LeaveNull(Uses(heap), Use(this, i));
        if operands[i] != null {
          OperandIsListed(uses, ops, this, i);
          operands[i].RemoveUse(this, i, heap);
        }
        assert operands == Ops(heap)[this];
        i := i + 1;
      }
      ChangeOperands([], heap);
      CutKeepsMirror(uses, ops, this);
    }

    /** Operand idx goes and the later ones move down. The mirror survives exactly
        when idx was the last operand or the next operand was another value. */
    method RemoveOperand(idx: nat, ghost heap: set<Value>)
      requires this in heap && Mirror(heap) && idx < |operands|
      requires forall i :: idx <= i < |operands| ==> operands[i] != null
      modifies heap
      ensures Ops(heap) == old(Ops(heap))[this := WithoutAt(old(operands), idx)]
      ensures Uses(heap) == AfterRemove(old(Uses(heap)), this, old(operands), idx)
      ensures Mirror(heap) <==> idx + 1 == |old(operands)| || old(operands[idx]) != old(operands)[idx + 1]
    {
      hide Removed, Mirrored, Leave, Join;
      ghost var uses, ops := Uses(heap), Ops(heap);
      ghost var vs := operands;
      var i := idx + 1;
      while i < |operands|
        invariant idx + 1 <= i <= |operands| && Ops(heap) == ops && operands == vs
        invariant Uses(heap) == Shifted(uses, this, vs, idx, i)
      {
        OperandIsListed(uses, ops, this, i);
        operands[i].RemoveUse(this, i, heap);
        assert operands == Ops(heap)[this];
        operands[i].AddUse(this, i - 1, heap);
        assert operands == Ops(heap)[this];
        i := i + 1;
      }
      OperandIsListed(uses, ops, this, idx);
      operands[idx].RemoveUse(this, idx, heap);
      assert operands == Ops(heap)[this];
      ChangeOperands(operands[..idx] + operands[idx + 1..], heap);
      RemoveMirrorIff(uses, ops, this, idx);
    }

    /** The turn both replacements are made of: one operand becomes newVal, and
        its entry goes from this list to the end of the other. */
    method MoveUse(use: Use, newVal: Value?, ghost heap: set<Value>, ghost uses: UseMap, ghost ops: OpMap,
            ghost stay: seq<Use>, ghost moved: seq<Use>)
      requires this in heap && use.user in heap && use.argNo < |use.user.operands|
      requires Mirror(heap) && (newVal != null ==> newVal in heap) && newVal != this && this in uses
      requires Moved(Uses(heap), Ops(heap), use.user, use.argNo, newVal)
          == Handed(uses, this, newVal, stay, moved + [use])
      requires Ops(heap)[use.user := use.user.operands[use.argNo := newVal]] == Redirected(ops, moved + [use], newVal)
      modifies heap
      ensures Mirror(heap) && useList == stay
      ensures Uses(heap) == Handed(uses, this, newVal, stay, moved + [use])
      ensures Ops(heap) == Redirected(ops, moved + [use], newVal)
    {
      hide Mirrored, Handed, Redirected, Moved;
      use.user.SetOperand(use.argNo, newVal, heap);
      HandedStay(uses, this, newVal, stay, moved + [use]);
      assert useList == Uses(heap)[this];
    }

    /** Every use of this value becomes a use of newVal, in the same order. */
    method ReplaceAllUseWith(newVal: Value?, ghost heap: set<Value>)
      requires this in heap && Mirror(heap) && (newVal != null ==> newVal in heap)
      modifies heap
      ensures Mirror(heap)
      ensures Ops(heap) == Replaced(old(Ops(heap)), this, newVal)
      ensures Uses(heap) == if newVal == this then old(Uses(heap))
          else Handed(old(Uses(heap)), this, newVal, [], old(useList))
    {
      hide Removed, Mirrored, Handed, Redirected, Replaced, Moved;
      ghost var uses, ops := Uses(heap), Ops(heap);
      if this == newVal {
        ReplacedItself(ops, this);
        return;
      }
      ghost var moved: seq<Use> := [];
      HandedNone(uses, ops, this, newVal);
      while |useList| > 0
        invariant Mirror(heap) && moved + useList == uses[this]
        invariant Uses(heap) == Handed(uses, this, newVal, useList, moved)
        invariant Ops(heap) == Redirected(ops, moved, newVal)
        decreases |useList|
      {
        var use := useList[0];
        ghost var rest := useList[1..];
        HandFirst(uses, ops, this, newVal, useList, moved);
        MoveUse(use, newVal, heap, uses, ops, rest, moved);
        moved := moved + [use];
      }
      assert useList == [] && moved == uses[this];
      RedirectedExactly(uses, ops, this, newVal);
    }

    /** The uses that pass the test become uses of newVal; the others stay. Both
        keep their order. */
    method ReplaceUseWithIf(newVal: Value?, shouldReplace: Use -> bool, ghost heap: set<Value>)
      requires this in heap && Mirror(heap) && (newVal != null ==> newVal in heap)
      modifies heap
      ensures Mirror(heap)
      ensures newVal == this ==> Uses(heap) == old(Uses(heap)) && Ops(heap) == old(Ops(heap))
      ensures newVal != this ==>
        && Ops(heap) == ReplacedIf(old(Ops(heap)), this, newVal, shouldReplace)
        && Uses(heap) == Handed(old(Uses(heap)), this, newVal,
             Filter(old(useList), Failing(shouldReplace)), Filter(old(useList), shouldReplace))
    {
      hide Removed, Mirrored, Handed, Redirected, ReplacedIf, Moved, Filter, Split, Dropped, Failing;
      if this == newVal { return; }
      ghost var uses, ops := Uses(heap), Ops(heap);
      ghost var list := useList;
      ghost var kept: seq<Use>, moved: seq<Use> := [], [];
      SplitNone(uses, ops, this, newVal, shouldReplace);
      var at := 0;
      ghost var k := 0;
      while at < |useList|
        invariant Mirror(heap) && at == |kept| && k <= |list|
        invariant Split(uses, ops, this, newVal, k, shouldReplace, kept, moved, useList, Uses(heap), Ops(heap))
        decreases |list| - k
      {
        var use := useList[at];
        SplitNext(uses, ops, this, newVal, k, shouldReplace, kept, moved, useList, Uses(heap), Ops(heap));
        if shouldReplace(use) {
          MoveUse(use, newVal, heap, uses, ops, Dropped(useList, at), moved);
          moved := moved + [use];
        } else {
          kept := kept + [use];
          at := at + 1;
        }
        k := k + 1;
      }
      SplitAll(uses, ops, this, newVal, k, shouldReplace, kept, moved, useList, Uses(heap), Ops(heap));
    }
  }

  /** The first k uses of v have been split: those in moved are handed to v2, and
      left is what the list of v has become. */
  ghost predicate Split(uses: UseMap, ops: OpMap, v: Value, v2: Value?, k: nat, p: Use -> bool, kept: seq<Use>,
          moved: seq<Use>, left: seq<Use>, now: UseMap, nowOps: OpMap)
  {
    && v in uses && k <= |uses[v]| && v2 != v && (v2 != null ==> v2 in uses) && Mirrored(uses, ops)
    && Sorted(uses[v], k, p, kept, moved, left)
    && now == Handed(uses, v, v2, left, moved)
    && nowOps == Redirected(ops, moved, v2)
  }

  lemma SplitNone(uses: UseMap, ops: OpMap, v: Value, v2: Value?, p: Use -> bool)
    requires v in uses && v2 != v && (v2 != null ==> v2 in uses) && Mirrored(uses, ops)
    ensures Split(uses, ops, v, v2, 0, p, [], [], uses[v], uses, ops)
  {
    hide Mirrored, Handed, Redirected, Sorted;
    HandedNone(uses, ops, v, v2);
    SortedNone(uses[v], p);
  }

  /** The next use: moving it, or keeping it, splits one more. */
  lemma SplitNext(uses: UseMap, ops: OpMap, v: Value, v2: Value?, k: nat, p: Use -> bool, kept: seq<Use>,
          moved: seq<Use>, left: seq<Use>, now: UseMap, nowOps: OpMap)
    requires Split(uses, ops, v, v2, k, p, kept, moved, left, now, nowOps) && |kept| < |left| && Mirrored(now, nowOps)
    ensures k < |uses[v]| && v in uses
    ensures var e := left[|kept|]; var stay := Dropped(left, |kept|);
      && (p(e) ==>
            && e.user in nowOps && e.argNo < |nowOps[e.user]|
            && Moved(now, nowOps, e.user, e.argNo, v2) == Handed(uses, v, v2, stay, moved + [e])
            && nowOps[e.user := nowOps[e.user][e.argNo := v2]] == Redirected(ops, moved + [e], v2)
            && Split(uses, ops, v, v2, k + 1, p, kept, moved + [e], stay, Handed(uses, v, v2, stay, moved + [e]),
                Redirected(ops, moved + [e], v2)))
      && (!p(e) ==> Split(uses, ops, v, v2, k + 1, p, kept + [e], moved, left, now, nowOps))
  {
    hide Mirrored, Handed, Redirected, Sorted, Moved, Dropped;
    NextUse(uses[v], k, p, kept, moved, left);
    if p(left[|kept|]) { HandNext(uses, ops, v, v2, uses[v], k, p, kept, moved, left); }
  }

  lemma SplitAll(uses: UseMap, ops: OpMap, v: Value, v2: Value?, k: nat, p: Use -> bool, kept: seq<Use>,
          moved: seq<Use>, left: seq<Use>, now: UseMap, nowOps: OpMap)
    requires Split(uses, ops, v, v2, k, p, kept, moved, left, now, nowOps) && |kept| >= |left|
    ensures v in uses && now == Handed(uses, v, v2, Filter(uses[v], Failing(p)), Filter(uses[v], p))
    ensures nowOps == ReplacedIf(ops, v, v2, p)
  {
    hide Mirrored, Handed, Redirected, Sorted, ReplacedIf, Filter, Failing;
    SortedAll(uses[v], k, p, kept, moved, left);
    RedirectedSome(uses, ops, v, v2, p);
  }

  /** The test turned around. */
  function Failing(p: Use -> bool): Use -> bool {
    e => !p(e)
  }

  /** The list without the entry at i. */
  function Dropped(s: seq<Use>, i: nat): seq<Use>
    requires i < |s|
  {
    s[..i] + s[i + 1..]
  }

  /** The first k entries are split into those that stay and those that move;
      left is what the list has become. */
  ghost predicate Sorted(list: seq<Use>, k: nat, p: Use -> bool, kept: seq<Use>, moved: seq<Use>, left: seq<Use>)
    requires k <= |list|
  {
    && kept == Filter(list[..k], Failing(p))
    && moved == Filter(list[..k], p)
    && left == kept + list[k..]
  }

  lemma SortedNone(list: seq<Use>, p: Use -> bool)
    ensures Sorted(list, 0, p, [], [], list)
  {
  }

  lemma SortedAll(list: seq<Use>, k: nat, p: Use -> bool, kept: seq<Use>, moved: seq<Use>, left: seq<Use>)
    requires k <= |list| && Sorted(list, k, p, kept, moved, left) && |kept| >= |left|
    ensures left == Filter(list, Failing(p)) && moved == Filter(list, p)
  {
    assert list[..|list|] == list && kept + [] == kept;
  }

  /** The entry looked at next, and where it goes. */
  lemma NextUse(list: seq<Use>, k: nat, p: Use -> bool, kept: seq<Use>, moved: seq<Use>, left: seq<Use>)
    requires k <= |list| && Sorted(list, k, p, kept, moved, left) && |kept| < |left|
    ensures k < |list| && left[|kept|] == list[k]
    ensures p(list[k]) ==> Sorted(list, k + 1, p, kept, moved + [list[k]], Dropped(left, |kept|))
    ensures !p(list[k]) ==> Sorted(list, k + 1, p, kept + [list[k]], moved, left)
  {
    hide Filter;
    FilterNext(list, k, Failing(p));
    FilterNext(list, k, p);
    assert moved + [] == moved && kept + [] == kept;
    assert list[k..] == [list[k]] + list[k + 1..];
    assert left == (kept + [list[k]]) + list[k + 1..];
    assert Dropped(left, |kept|) == kept + list[k + 1..];
  }

  /** Handing over the entry after kept. */
  lemma HandNext(uses: UseMap, ops: OpMap, v: Value, v2: Value?, list: seq<Use>, k: nat, p: Use -> bool,
          kept: seq<Use>, moved: seq<Use>, left: seq<Use>)
    requires v in uses && v2 != v && (v2 != null ==> v2 in uses) && Mirrored(uses, ops) && list == uses[v] && k < |list|
    requires Sorted(list, k, p, kept, moved, left) && |kept| < |left|
    requires Mirrored(Handed(uses, v, v2, left, moved), Redirected(ops, moved, v2))
    ensures var now, nowOps, e := Handed(uses, v, v2, left, moved), Redirected(ops, moved, v2), list[k];
      && e.user in nowOps && e.argNo < |nowOps[e.user]| && nowOps[e.user][e.argNo] == v
      && Moved(now, nowOps, e.user, e.argNo, v2) == Handed(uses, v, v2, Dropped(left, |kept|), moved + [e])
      && nowOps[e.user := nowOps[e.user][e.argNo := v2]] == Redirected(ops, moved + [e], v2)
  {
    hide Mirrored, Handed, Redirected, Moved, Filter;
    MirrorNoDup(uses, ops, v);
    FilterAbsent(list, k, p);
    assert kept + [list[k]] + list[k + 1..] == left;
    assert Dropped(left, |kept|) == kept + list[k + 1..];
    HandStep(uses, ops, v, v2, kept, list[k], list[k + 1..], moved);
  }

  lemma MirrorNoDup(uses: UseMap, ops: OpMap, v: Value)
    requires Mirrored(uses, ops) && v in uses
    ensures NoDup(uses[v])
  {
  }

  lemma LeaveNull(uses: UseMap, e: Use)
    ensures Leave(uses, null, e) == uses && Join(uses, null, e) == uses
  {
  }

  lemma FirstNotMoved(uses: UseMap, ops: OpMap, v: Value, moved: seq<Use>, list: seq<Use>)
    requires Mirrored(uses, ops) && v in uses && moved + list == uses[v] && |list| > 0
    ensures list[0] !in moved
  {
    var s := uses[v];
    assert s[|moved|] == list[0];
    forall k | 0 <= k < |moved| ensures moved[k] != list[0] { assert s[k] == moved[k]; }
  }

  /** Handing over the first entry that is left. */
  lemma HandFirst(uses: UseMap, ops: OpMap, v: Value, v2: Value?, list: seq<Use>, moved: seq<Use>)
    requires v in uses && v2 != v && (v2 != null ==> v2 in uses) && Mirrored(uses, ops) && moved + list == uses[v]
        && |list| > 0
    requires Mirrored(Handed(uses, v, v2, list, moved), Redirected(ops, moved, v2))
    ensures var now, nowOps, e := Handed(uses, v, v2, list, moved), Redirected(ops, moved, v2), list[0];
      && e.user in nowOps && e.argNo < |nowOps[e.user]| && nowOps[e.user][e.argNo] == v
      && Moved(now, nowOps, e.user, e.argNo, v2) == Handed(uses, v, v2, list[1..], moved + [e])
      && nowOps[e.user := nowOps[e.user][e.argNo := v2]] == Redirected(ops, moved + [e], v2)
  {
    hide Mirrored, Handed, Redirected, Moved;
    FirstNotMoved(uses, ops, v, moved, list);
    assert [] + [list[0]] + list[1..] == list && [] + list[1..] == list[1..];
    HandStep(uses, ops, v, v2, [], list[0], list[1..], moved);
  }

  lemma HandedStay(uses: UseMap, v: Value, v2: Value?, stay: seq<Use>, moved: seq<Use>)
    requires v in uses && v2 != v
    ensures Handed(uses, v, v2, stay, moved)[v] == stay
  {
  }
}
