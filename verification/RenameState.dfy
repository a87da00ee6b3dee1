/** The state of the renaming walk as values: code split into phis and rest,
    definition stacks, and what each step of the walk does to them. */
module RenameState {
  import opened Cfg
  import opened Ir
  import opened Exec
  import opened Renaming
  import opened Promotion
  import opened PhiPlacement

  // ---------- code, split into phis and rest ----------

  function PhisOf(list: seq<Instr>): seq<Instr> {
    list[..PhiCount(list)]
  }

  function RestOf(list: seq<Instr>): seq<Instr> {
    list[PhiCount(list)..]
  }

  lemma {:induction false} PhiCountSplit(heads: seq<Instr>, rest: seq<Instr>)
    requires (forall i :: 0 <= i < |heads| ==> heads[i].IsPhi()) && (|rest| > 0 ==> !rest[0].IsPhi())
    ensures PhiCount(heads + rest) == |heads|
    ensures PhisOf(heads + rest) == heads && RestOf(heads + rest) == rest
  {
    if |heads| > 0 {
      assert (heads + rest)[1..] == heads[1..] + rest;
      PhiCountSplit(heads[1..], rest);
    } else {
      assert heads + rest == rest;
    }
  }

  lemma {:induction false} SamePhiCount(sub: map<Value, Value>, list: seq<Instr>)
    ensures PhiCount(SubList(sub, list)) == PhiCount(list)
  {
    if |list| > 0 {
      assert SubList(sub, list)[1..] == SubList(sub, list[1..]);
      SamePhiCount(sub, list[1..]);
    }
  }

  lemma PhiCountSub(sub: map<Value, Value>, list: seq<Instr>)
    ensures PhiCount(SubList(sub, list)) == PhiCount(list)
    ensures PhisOf(SubList(sub, list)) == SubList(sub, PhisOf(list))
    ensures RestOf(SubList(sub, list)) == SubList(sub, RestOf(list))
  {
    hide SubInstr, PhiCount;
    SamePhiCount(sub, list);
  }

  // ---------- replacing all uses of one value ----------

  /** No instruction of the list uses d. */
  ghost predicate Unused(d: Value, list: seq<Instr>) {
    forall ins :: ins in list ==> d !in ins.operands
  }

  lemma SubUnused(d: Value, o: Value, list: seq<Instr>)
    requires Unused(d, list)
    ensures SubList(map[d := o], list) == list
  {
    forall i | 0 <= i < |list|
      ensures SubInstr(map[d := o], list[i]) == list[i]
    {
      assert list[i] in list;
      assert forall k :: 0 <= k < |list[i].operands| ==> list[i].operands[k] in list[i].operands;
      assert SubOperands(map[d := o], list[i].operands) == list[i].operands;
    }
  }

  lemma SubCompose(sub: map<Value, Value>, d: Value, o: Value, list: seq<Instr>)
    requires d !in sub && forall x :: x in sub ==> sub[x] != d
    ensures SubList(map[d := o], SubList(sub, list)) == SubList(sub[d := o], list)
  {
    forall i | 0 <= i < |list|
      ensures SubInstr(map[d := o], SubInstr(sub, list[i])) == SubInstr(sub[d := o], list[i])
    {
      var vs := list[i].operands;
      assert SubOperands(map[d := o], SubOperands(sub, vs)) == SubOperands(sub[d := o], vs);
    }
  }

  // ---------- what holds of the code during the walk ----------

  /** o is a promoted load of a reachable block. */
  ghost predicate Promoted(p: Problem, o: Value)
    requires p.Analysed()
  {
    exists c, j :: DefinedAt(p.f, o, c, j) && p.f.code[c][j].IsCellLoad() && Reachable(p.f.g, c)
  }

  ghost predicate Clean(p: Problem, list: seq<Instr>)
    requires p.Analysed()
  {
    forall ins, o {:trigger Promoted(p, o), ins in list} :: ins in list && o in ins.operands ==> !Promoted(p, o)
  }

  /** A promoted load still used in block c is defined in a dominator of c. */
  ghost predicate Scoped(p: Problem, c: Block, list: seq<Instr>)
    requires p.Analysed()
  {
    forall ins, o, d, j {:trigger ins in list, DefinedAt(p.f, o, d, j)} ::
      ins in list && o in ins.operands && DefinedAt(p.f, o, d, j) && p.f.code[d][j].IsCellLoad()
          && Reachable(p.f.g, d) ==>
        Dom(p.f.g, d, c)
  }

  ghost predicate HeadShape(p: Problem, c: Block, heads: seq<Instr>)
    requires p.Analysed() && c in p.f.g.blocks
  {
    && DistinctIds(heads)
    && (forall i :: 0 <= i < |heads| ==>
          heads[i].IsPhi() && heads[i].id.Phi? && heads[i].id.at == c && |heads[i].operands| % 2 == 0 &&
          (heads[i].id.of == Null || heads[i].id.of in p.phiVars[c]))
    && (forall v :: v in p.phiVars[c] ==> HasHead(heads, Phi(v, c)))
  }

  /** The phis have been fed from the predecessors in done and no others. */
  ghost predicate Fed(p: Problem, c: Block, heads: seq<Instr>, done: set<Block>)
    requires p.Analysed() && c in p.f.g.blocks
  {
    forall i, q :: 0 <= i < |heads| && heads[i].id.Phi? && heads[i].id.of != Null &&
                   q in p.f.g.pre[c] && q in p.f.g.blocks && Reachable(p.f.g, q) ==>
      PhiSource(heads[i].operands, q) == if q in done then Incoming(p, heads[i].id.of, q) else None
  }

  ghost predicate HeadsInv(p: Problem, c: Block, heads: seq<Instr>, done: set<Block>)
    requires p.Analysed() && c in p.f.g.blocks
  {
    HeadShape(p, c, heads) && Fed(p, c, heads, done) && Clean(p, heads) && FedByValues(heads)
  }

  /** A phi with a variable is never fed from a phi without one. */
  ghost predicate FedByValues(heads: seq<Instr>) {
    forall i, o :: 0 <= i < |heads| && heads[i].id.Phi? && heads[i].id.of != Null && o in heads[i].operands ==>
        !o.IsBlank()
  }

  ghost predicate BlockInv(p: Problem, c: Block, list: seq<Instr>, done: set<Block>)
    requires p.Analysed() && c in p.f.g.blocks
  {
    HeadsInv(p, c, PhisOf(list), done) && Scoped(p, c, RestOf(list))
  }

  ghost predicate CodeInv(p: Problem, code: map<Block, seq<Instr>>, done: set<Block>)
    requires p.Analysed()
  {
    forall c :: c in p.f.g.blocks && Reachable(p.f.g, c) ==> c in code && BlockInv(p, c, code[c], done)
  }

  /** Every block dominated by b still has its original instructions, with sub applied. */
  ghost predicate SubtreeIs(p: Problem, code: map<Block, seq<Instr>>, b: Block, sub: map<Value, Value>)
    requires p.Analysed()
  {
    forall c :: c in p.f.g.blocks && Dom(p.f.g, b, c) ==> c in code && RestOf(code[c]) == SubList(sub, p.f.code[c])
  }

  function ReplaceUses(code: map<Block, seq<Instr>>, d: Value, o: Value): map<Block, seq<Instr>> {
    map c | c in code :: SubList(map[d := o], code[c])
  }

  lemma PromotedAt(p: Problem, b: Block, k: int)
    requires p.Analysed() && b in p.f.g.blocks && Reachable(p.f.g, b) && b in p.f.code && 0 <= k < |p.f.code[b]|
    requires p.f.code[b][k].IsCellLoad()
    ensures Promoted(p, p.f.code[b][k].id) && DefinedAt(p.f, p.f.code[b][k].id, b, k)
  {
    assert DefinedAt(p.f, p.f.code[b][k].id, b, k);
  }

  lemma CleanUnused(p: Problem, list: seq<Instr>, d: Value)
    requires p.Analysed() && Clean(p, list) && Promoted(p, d)
    ensures Unused(d, list)
  {
  }

  lemma ScopedUnused(p: Problem, b: Block, k: int, c: Block, list: seq<Instr>)
    requires p.Analysed() && b in p.f.g.blocks && Reachable(p.f.g, b) && b in p.f.code && 0 <= k < |p.f.code[b]|
    requires p.f.code[b][k].IsCellLoad() && Scoped(p, c, list) && !Dom(p.f.g, b, c)
    ensures Unused(p.f.code[b][k].id, list)
  {
    PromotedAt(p, b, k);
  }

  /** Replacing a promoted load of b acts on b's subtree only, where it extends the substitution. */
  lemma ReplaceInBlock(p: Problem, b: Block, k: int, c: Block, list0: seq<Instr>, list: seq<Instr>, done: set<Block>,
          o: Value)
    requires p.Valid() && b in p.f.g.blocks && Reachable(p.f.g, b) && 0 <= k < |p.f.code[b]|
        && p.f.code[b][k].IsCellLoad()
    requires c in p.f.g.blocks && Reachable(p.f.g, c) && BlockInv(p, c, list0, done)
    requires PhisOf(list) == PhisOf(list0)
    requires if Dom(p.f.g, b, c) then RestOf(list) == SubList(At(p, b, k).sub, p.f.code[c])
        else RestOf(list) == RestOf(list0)
    ensures var d := p.f.code[b][k].id; var list' := SubList(map[d := o], list);
            && PhisOf(list') == PhisOf(list0)
            && (if Dom(p.f.g, b, c) then RestOf(list') == SubList(At(p, b, k).sub[d := o], p.f.code[c])
                else RestOf(list') == RestOf(list0))
  {
    var d := p.f.code[b][k].id;
    PhiCountSub(map[d := o], list);
    PromotedAt(p, b, k);
    CleanUnused(p, PhisOf(list0), d);
    SubUnused(d, o, PhisOf(list));
    if Dom(p.f.g, b, c) {
      NotYetReplaced(p, b, k);
      SubCompose(At(p, b, k).sub, d, o, p.f.code[c]);
    } else {
      ScopedUnused(p, b, k, c, RestOf(list0));
      SubUnused(d, o, RestOf(list0));
    }
  }

  lemma NotYetReplaced(p: Problem, b: Block, k: int)
    requires p.Valid() && b in p.f.g.blocks && Reachable(p.f.g, b) && 0 <= k < |p.f.code[b]|
    ensures var d := p.f.code[b][k].id; var sub := At(p, b, k).sub; d !in sub && forall x :: x in sub ==> sub[x] != d
  {
    StateOkAt(p, b, k);
    NotYetDefined(p, b, k);
  }

  /** Block c while b is renamed: its phis are as in code0; inside b's subtree
      its rest is the original under sub, outside it is as in code0. */
  ghost predicate BlockRenamed(p: Problem, b: Block, sub: map<Value, Value>, code0: map<Block, seq<Instr>>,
          code: map<Block, seq<Instr>>, c: Block)
    requires p.Analysed() && c in p.f.g.blocks
  {
    && c in code0 && c in code
    && PhisOf(code[c]) == PhisOf(code0[c])
    && RestOf(code[c]) == (if Dom(p.f.g, b, c) then SubList(sub, p.f.code[c]) else RestOf(code0[c]))
  }

  ghost predicate CodeRenamed(p: Problem, b: Block, sub: map<Value, Value>, code0: map<Block, seq<Instr>>,
          code: map<Block, seq<Instr>>)
    requires p.Analysed()
  {
    && code.Keys == code0.Keys
    && forall c {:trigger BlockRenamed(p, b, sub, code0, code, c)} ::
         c in p.f.g.blocks && Reachable(p.f.g, c) ==> BlockRenamed(p, b, sub, code0, code, c)
  }

  lemma CodeRenamedStarts(p: Problem, b: Block, sub: map<Value, Value>, code: map<Block, seq<Instr>>, done: set<Block>)
    requires p.Analysed() && CodeInv(p, code, done) && SubtreeIs(p, code, b, sub)
    ensures CodeRenamed(p, b, sub, code, code)
  {
  }

  lemma BlockRenamedLoad(p: Problem, b: Block, k: int, code0: map<Block, seq<Instr>>, code: map<Block, seq<Instr>>,
          done: set<Block>, o: Value, c: Block)
    requires p.Valid() && b in p.f.g.blocks && Reachable(p.f.g, b) && 0 <= k < |p.f.code[b]|
        && p.f.code[b][k].IsCellLoad()
    requires c in p.f.g.blocks && Reachable(p.f.g, c) && c in code0 && BlockInv(p, c, code0[c], done)
    requires BlockRenamed(p, b, At(p, b, k).sub, code0, code, c)
    ensures var d := p.f.code[b][k].id;
            BlockRenamed(p, b, At(p, b, k).sub[d := o], code0, ReplaceUses(code, d, o), c)
  {
    hide Problem.Valid, BlockInv, At;
    ReplaceInBlock(p, b, k, c, code0[c], code[c], done, o);
  }

  lemma CodeInvAt(p: Problem, code: map<Block, seq<Instr>>, done: set<Block>, c: Block)
    requires p.Analysed() && CodeInv(p, code, done) && c in p.f.g.blocks && Reachable(p.f.g, c)
    ensures c in code && BlockInv(p, c, code[c], done)
  {
  }

  /** A promoted load of b is replaced everywhere. */
  lemma CodeRenamedLoad(p: Problem, b: Block, k: int, code0: map<Block, seq<Instr>>, code: map<Block, seq<Instr>>,
          done: set<Block>)
    requires p.Valid() && b in p.f.g.blocks && Reachable(p.f.g, b) && 0 <= k < |p.f.code[b]|
        && p.f.code[b][k].IsCellLoad()
    requires CodeInv(p, code0, done) && CodeRenamed(p, b, At(p, b, k).sub, code0, code)
    ensures p.f.code[b][k].operands[0] in At(p, b, k).env
    ensures CodeRenamed(p, b, At(p, b, k + 1).sub, code0,
        ReplaceUses(code, p.f.code[b][k].id, At(p, b, k).env[p.f.code[b][k].operands[0]]))
  {
    hide Problem.Valid, CodeInv, BlockRenamed, Reachable, BlockInv, Start;
    ProblemFacts(p, b);
    LoadsCovered(p, b, k);
    var d, o := p.f.code[b][k].id, At(p, b, k).env[p.f.code[b][k].operands[0]];
    var code' := ReplaceUses(code, d, o);
    assert At(p, b, k + 1).sub == At(p, b, k).sub[d := o];
    assert code'.Keys == code.Keys;
    var sub := At(p, b, k).sub;
    hide Problem.Analysed, At;
    forall c | c in p.f.g.blocks && Reachable(p.f.g, c)
      ensures BlockRenamed(p, b, sub[d := o], code0, code', c)
    {
      assert BlockRenamed(p, b, sub, code0, code, c);
      CodeInvAt(p, code0, done, c);
      BlockRenamedLoad(p, b, k, code0, code, done, o, c);
    }
  }

  lemma CodeRenamedSkip(p: Problem, b: Block, k: int, code0: map<Block, seq<Instr>>, code: map<Block, seq<Instr>>)
    requires p.Analysed() && b in p.f.g.blocks && Reachable(p.f.g, b) && 0 <= k < |p.f.code[b]|
    requires CodeRenamed(p, b, At(p, b, k).sub, code0, code) && !p.f.code[b][k].IsCellLoad()
    ensures CodeRenamed(p, b, At(p, b, k + 1).sub, code0, code)
  {
    assert At(p, b, k + 1).sub == At(p, b, k).sub;
  }

  // ---------- what no instruction uses any more ----------

  /** The instruction uses none of the values gone, and a blank phi only if it is
      one itself. */
  ghost predicate ClearInstr(ins: Instr, gone: set<Value>) {
    && (ins.id.IsBlank() ==> ins.IsPhi())
    && forall o :: o in ins.operands ==> o !in gone && (o.IsBlank() ==> ins.id.IsBlank())
  }

  ghost predicate ClearList(list: seq<Instr>, gone: set<Value>) {
    forall i :: 0 <= i < |list| ==> ClearInstr(list[i], gone)
  }

  /** So in every block, reachable or not. */
  ghost predicate Clear(code: map<Block, seq<Instr>>, gone: set<Value>) {
    forall c :: c in code ==> ClearList(code[c], gone)
  }

  /** The promoted loads of the reachable blocks among s. */
  ghost function Loads(p: Problem, s: set<Block>): set<Value>
    requires p.Analysed()
  {
    set c, j | c in s && c in p.f.g.blocks && Reachable(p.f.g, c) && 0 <= j < |p.f.code[c]|
        && p.f.code[c][j].IsCellLoad() ::
      p.f.code[c][j].id
  }

  /** The promoted loads among the first i instructions. */
  function LoadIds(list: seq<Instr>, i: int): set<Value>
    requires 0 <= i <= |list|
  {
    if i == 0 then {}
    else LoadIds(list, i - 1) + (if list[i - 1].IsCellLoad() then {list[i - 1].id} else {})
  }

  lemma {:induction false} LoadIdsAre(list: seq<Instr>, i: int, x: Value)
    requires 0 <= i <= |list|
    ensures x in LoadIds(list, i) <==> exists j :: 0 <= j < i && list[j].IsCellLoad() && list[j].id == x
  {
    if i > 0 { LoadIdsAre(list, i - 1, x); }
  }

  lemma LoadsWith(p: Problem, b: Block, done: set<Block>)
    requires p.Analysed() && b in p.f.g.blocks && Reachable(p.f.g, b) && b in p.f.code
    ensures Loads(p, done) + LoadIds(p.f.code[b], |p.f.code[b]|) == Loads(p, done + {b})
  {
    hide Problem.Analysed, Reachable, LoadIds;
    forall x ensures x in LoadIds(p.f.code[b], |p.f.code[b]|) <==> exists j ::
        0 <= j < |p.f.code[b]| && p.f.code[b][j].IsCellLoad() && p.f.code[b][j].id == x {
      LoadIdsAre(p.f.code[b], |p.f.code[b]|, x);
    }
  }

  lemma LoadIsPromoted(p: Problem, done: set<Block>, b: Block, i: int, x: Value)
    requires p.Analysed() && b in p.f.g.blocks && Reachable(p.f.g, b) && b in p.f.code && 0 <= i <= |p.f.code[b]|
    requires x in Loads(p, done) + LoadIds(p.f.code[b], i)
    ensures Promoted(p, x)
  {
    hide Reachable, LoadIds;
    if x in Loads(p, done) {
      var c, j :| c in done && c in p.f.g.blocks && Reachable(p.f.g, c) && 0 <= j < |p.f.code[c]|
          && p.f.code[c][j].IsCellLoad() && p.f.code[c][j].id == x;
      assert DefinedAt(p.f, x, c, j);
    } else {
      LoadIdsAre(p.f.code[b], i, x);
      var j :| 0 <= j < i && p.f.code[b][j].IsCellLoad() && p.f.code[b][j].id == x;
      assert DefinedAt(p.f, x, b, j);
    }
  }

  /** Replacing d by a value that is neither gone nor blank. */
  lemma ReplaceClear(code: map<Block, seq<Instr>>, gone: set<Value>, d: Value, o: Value)
    requires Clear(code, gone) && o !in gone + {d} && !o.IsBlank()
    ensures Clear(ReplaceUses(code, d, o), gone + {d})
  {
    forall c, i | c in code && 0 <= i < |code[c]|
      ensures ClearInstr(SubInstr(map[d := o], code[c][i]), gone + {d})
    {
      assert ClearList(code[c], gone);
      var ins := code[c][i];
      forall x | x in SubInstr(map[d := o], ins).operands
        ensures x !in gone + {d} && (x.IsBlank() ==> ins.id.IsBlank())
      {
        var k :| 0 <= k < |ins.operands| && Sub(map[d := o], ins.operands[k]) == x;
        assert ins.operands[k] in ins.operands;
      }
    }
  }

  /** What replaces a promoted load is neither a promoted load nor blank. */
  lemma TopFits(p: Problem, b: Block, k: int)
    requires p.Valid() && b in p.f.g.blocks && Reachable(p.f.g, b) && 0 <= k < |p.f.code[b]|
        && p.f.code[b][k].IsCellLoad()
    ensures p.f.code[b][k].operands[0] in At(p, b, k).env
    ensures var o := At(p, b, k).env[p.f.code[b][k].operands[0]]; !Promoted(p, o) && !o.IsBlank()
  {
    LoadsCovered(p, b, k);
    StateOkAt(p, b, k);
    NoBlankAt(p, b, k);
    var o := At(p, b, k).env[p.f.code[b][k].operands[0]];
    hide Problem.Valid, At;
    NotPromoted(p, b, k, o);
  }

  lemma NotPromoted(p: Problem, b: Block, i: int, y: Value)
    requires p.Valid() && (!y.IsInstruction() || y.Phi? || Stable(p, b, i, y))
    ensures !Promoted(p, y)
  {
  }

  /** The walk of b stands before original instruction k: b's subtree is renamed so
      far, and no block uses what has been replaced so far. */
  ghost predicate Walked(p: Problem, b: Block, done: set<Block>, k: int, code0: map<Block, seq<Instr>>,
          code: map<Block, seq<Instr>>)
    requires p.Analysed() && b in p.f.g.blocks && Reachable(p.f.g, b) && 0 <= k <= |p.f.code[b]|
  {
    CodeRenamed(p, b, At(p, b, k).sub, code0, code) && Clear(code, Loads(p, done) + LoadIds(p.f.code[b], k))
  }

  lemma WalkedStarts(p: Problem, b: Block, done: set<Block>, code: map<Block, seq<Instr>>)
    requires p.Analysed() && b in p.f.g.blocks && Reachable(p.f.g, b)
    requires CodeInv(p, code, done) && SubtreeIs(p, code, b, Start(p, b).sub) && Clear(code, Loads(p, done))
    ensures Walked(p, b, done, 0, code, code)
  {
    hide Reachable, CodeInv, SubtreeIs, Clear, Loads, Start, CodeRenamed;
    AtStart(p, b);
    CodeRenamedStarts(p, b, Start(p, b).sub, code, done);
    assert Loads(p, done) + LoadIds(p.f.code[b], 0) == Loads(p, done);
  }

  lemma WalkedEnds(p: Problem, b: Block, done: set<Block>, code0: map<Block, seq<Instr>>, code: map<Block, seq<Instr>>)
    requires p.Analysed() && b in p.f.g.blocks && Reachable(p.f.g, b) && b in p.f.code
        && Walked(p, b, done, |p.f.code[b]|, code0, code)
    ensures CodeRenamed(p, b, End(p, b).sub, code0, code) && Clear(code, Loads(p, done + {b}))
  {
    hide Reachable, Clear, Loads, CodeRenamed, LoadIds;
    LoadsWith(p, b, done);
  }

  lemma WalkedNow(p: Problem, b: Block, done: set<Block>, k: int, code0: map<Block, seq<Instr>>,
          code: map<Block, seq<Instr>>)
    requires p.Analysed() && b in p.f.g.blocks && Reachable(p.f.g, b) && 0 <= k <= |p.f.code[b]|
        && Walked(p, b, done, k, code0, code)
    ensures b in code0 && b in code && b in p.f.code
    ensures Shown(p, b, PhisOf(code0[b]), At(p, b, k).sub, code[b])
  {
    hide Reachable, Clear, Loads, CodeRenamed, LoadIds, Shown;
    ShownNow(p, b, At(p, b, k).sub, code0, code);
  }

  lemma WalkedSkip(p: Problem, b: Block, done: set<Block>, k: int, code0: map<Block, seq<Instr>>,
          code: map<Block, seq<Instr>>)
    requires p.Analysed() && b in p.f.g.blocks && Reachable(p.f.g, b) && 0 <= k < |p.f.code[b]|
    requires Walked(p, b, done, k, code0, code) && !p.f.code[b][k].IsCellLoad()
    ensures Walked(p, b, done, k + 1, code0, code)
  {
    hide Reachable, Clear, Loads, CodeRenamed;
    CodeRenamedSkip(p, b, k, code0, code);
    assert LoadIds(p.f.code[b], k + 1) == LoadIds(p.f.code[b], k);
  }

  lemma WalkedLoad(p: Problem, b: Block, done: set<Block>, k: int, code0: map<Block, seq<Instr>>,
          code: map<Block, seq<Instr>>)
    requires p.Valid() && b in p.f.g.blocks && Reachable(p.f.g, b) && 0 <= k < |p.f.code[b]|
        && p.f.code[b][k].IsCellLoad()
    requires CodeInv(p, code0, done) && Walked(p, b, done, k, code0, code)
    ensures p.f.code[b][k].operands[0] in At(p, b, k).env
    ensures Walked(p, b, done, k + 1, code0,
        ReplaceUses(code, p.f.code[b][k].id, At(p, b, k).env[p.f.code[b][k].operands[0]]))
  {
    hide Problem.Valid, Reachable, CodeInv, Clear, Loads, CodeRenamed, ReplaceUses, At, Promoted;
    ProblemFacts(p, b);
    CodeRenamedLoad(p, b, k, code0, code, done);
    TopFits(p, b, k);
    var d, o := p.f.code[b][k].id, At(p, b, k).env[p.f.code[b][k].operands[0]];
    var gone := Loads(p, done) + LoadIds(p.f.code[b], k);
    assert Loads(p, done) + LoadIds(p.f.code[b], k + 1) == gone + {d};
    if o in gone + {d} {
      LoadIsPromoted(p, done, b, k + 1, o);
    }
    ReplaceClear(code, gone, d, o);
  }

  // ---------- the definition stacks ----------

  function StackOf(stack: map<Value, seq<Value>>, v: Value): seq<Value> {
    if v in stack then stack[v] else []
  }

  function Push(stack: map<Value, seq<Value>>, v: Value, x: Value): map<Value, seq<Value>> {
    stack[v := StackOf(stack, v) + [x]]
  }

  /** Each variable's stack has its current definition on top, or is empty if
      it has none; only variables and the null value (for blank phis) have stacks. */
  ghost predicate StackIs(stack: map<Value, seq<Value>>, env: map<Value, Value>) {
    && (forall v :: v in stack ==> v == Null || v.Alloca?)
    && (forall x :: x in StackOf(stack, Null) ==> x.Phi?)
    && (forall v {:trigger StackOf(stack, v)} :: v != Null ==> (v in env <==> StackOf(stack, v) != []))
    && (forall v {:trigger StackOf(stack, v)} ::
        v != Null && v in env ==> StackOf(stack, v)[|StackOf(stack, v)| - 1] == env[v])
  }

  /** stack is stack0 with as many more entries on each variable's stack as keys counts. */
  ghost predicate Pushed(stack0: map<Value, seq<Value>>, stack: map<Value, seq<Value>>, keys: multiset<Value>) {
    forall v {:trigger StackOf(stack, v)} ::
      |StackOf(stack, v)| == |StackOf(stack0, v)| + keys[v]
          && StackOf(stack, v)[..|StackOf(stack0, v)|] == StackOf(stack0, v)
  }

  lemma PushedNone(stack: map<Value, seq<Value>>)
    ensures Pushed(stack, stack, multiset{})
  {
  }

  lemma PushedOne(stack0: map<Value, seq<Value>>, stack: map<Value, seq<Value>>, keys: multiset<Value>, v: Value,
          x: Value)
    requires Pushed(stack0, stack, keys)
    ensures Pushed(stack0, Push(stack, v, x), keys + multiset{v})
  {
    var stack' := Push(stack, v, x);
    forall u
      ensures |StackOf(stack', u)| == |StackOf(stack0, u)| + (keys + multiset{v})[u]
      ensures StackOf(stack', u)[..|StackOf(stack0, u)|] == StackOf(stack0, u)
    {
      assert |StackOf(stack, u)| == |StackOf(stack0, u)| + keys[u];
      assert (StackOf(stack, u) + [x])[..|StackOf(stack0, u)|] == StackOf(stack, u)[..|StackOf(stack0, u)|];
    }
  }

  lemma PoppedOne(stack0: map<Value, seq<Value>>, stack: map<Value, seq<Value>>, keys: multiset<Value>, v: Value)
    requires Pushed(stack0, stack, keys) && v in keys
    ensures v in stack && |stack[v]| > 0
    ensures Pushed(stack0, stack[v := stack[v][..|stack[v]| - 1]], keys - multiset{v})
  {
    assert |StackOf(stack, v)| == |StackOf(stack0, v)| + keys[v];
    var stack' := stack[v := stack[v][..|stack[v]| - 1]];
    forall u
      ensures |StackOf(stack', u)| == |StackOf(stack0, u)| + (keys - multiset{v})[u]
      ensures StackOf(stack', u)[..|StackOf(stack0, u)|] == StackOf(stack0, u)
    {
      assert |StackOf(stack, u)| == |StackOf(stack0, u)| + keys[u];
      assert StackOf(stack, u)[..|StackOf(stack0, u)|] == StackOf(stack0, u);
    }
  }

  /** The stacks hold the same entries. */
  ghost predicate SameStacks(stack0: map<Value, seq<Value>>, stack: map<Value, seq<Value>>) {
    forall v {:trigger StackOf(stack, v)} {:trigger StackOf(stack0, v)} :: StackOf(stack, v) == StackOf(stack0, v)
  }

  lemma PoppedAll(stack0: map<Value, seq<Value>>, stack: map<Value, seq<Value>>)
    requires Pushed(stack0, stack, multiset{})
    ensures SameStacks(stack0, stack)
  {
    forall v
      ensures StackOf(stack, v) == StackOf(stack0, v)
    {
      assert |StackOf(stack, v)| == |StackOf(stack0, v)|;
      assert StackOf(stack, v)[..|StackOf(stack0, v)|] == StackOf(stack0, v);
    }
  }

  lemma PushedSame(stack0: map<Value, seq<Value>>, stack: map<Value, seq<Value>>, stack': map<Value, seq<Value>>,
          keys: multiset<Value>)
    requires Pushed(stack0, stack, keys) && SameStacks(stack, stack')
    ensures Pushed(stack0, stack', keys)
  {
    forall v
      ensures |StackOf(stack', v)| == |StackOf(stack0, v)| + keys[v]
      ensures StackOf(stack', v)[..|StackOf(stack0, v)|] == StackOf(stack0, v)
    {
      assert StackOf(stack', v) == StackOf(stack, v);
    }
  }

  lemma StackIsSame(stack: map<Value, seq<Value>>, stack': map<Value, seq<Value>>, env: map<Value, Value>)
    requires StackIs(stack, env) && SameStacks(stack, stack')
    requires forall v :: v in stack' ==> v == Null || v.Alloca?
    ensures StackIs(stack', env)
  {
    assert StackOf(stack', Null) == StackOf(stack, Null);
    forall v | v != Null
      ensures v in env <==> StackOf(stack', v) != []
      ensures v in env ==> StackOf(stack', v)[|StackOf(stack', v)| - 1] == env[v]
    {
      assert StackOf(stack', v) == StackOf(stack, v);
    }
  }

  lemma StackPush(stack: map<Value, seq<Value>>, env: map<Value, Value>, v: Value, x: Value)
    requires StackIs(stack, env) && v.Alloca?
    ensures StackIs(Push(stack, v, x), env[v := x])
  {
    var stack' := Push(stack, v, x);
    assert StackOf(stack', Null) == StackOf(stack, Null);
    forall u | u != Null
      ensures u in env[v := x] <==> StackOf(stack', u) != []
      ensures u in env[v := x] ==> StackOf(stack', u)[|StackOf(stack', u)| - 1] == env[v := x][u]
    {
      assert u != v ==> StackOf(stack', u) == StackOf(stack, u);
    }
  }

  lemma StackPushBlank(stack: map<Value, seq<Value>>, env: map<Value, Value>, x: Value)
    requires StackIs(stack, env) && x.Phi?
    ensures StackIs(Push(stack, Null, x), env)
  {
    var stack' := Push(stack, Null, x);
    forall u | u != Null
      ensures StackOf(stack', u) == StackOf(stack, u)
    {
    }
    assert StackOf(stack', Null) == StackOf(stack, Null) + [x];
  }

  // ---------- walking the instructions of one block ----------

  /** The definitions in force before the phis of b. */
  ghost function InEnv(p: Problem, b: Block): map<Value, Value>
    requires p.Analysed() && b in p.f.g.blocks && Reachable(p.f.g, b)
  {
    if b == p.f.g.Entry() then map[]
    else
      DomReachable(p.f.g, p.idom[b], b);
      End(p, p.idom[b]).env
  }

  ghost function HeadEnv(env: map<Value, Value>, heads: seq<Instr>, i: int): map<Value, Value>
    requires 0 <= i <= |heads|
  {
    if i == 0 then env
    else
      var id := heads[i - 1].id;
      if id.Phi? && id.of != Null then HeadEnv(env, heads, i - 1)[id.of := id] else HeadEnv(env, heads, i - 1)
  }

  ghost predicate PhiIdsAt(b: Block, heads: seq<Instr>) {
    forall i :: 0 <= i < |heads| ==> heads[i].id.Phi? && heads[i].id.at == b
  }

  lemma HasHeadNext(b: Block, heads: seq<Instr>, i: int, v: Value)
    requires PhiIdsAt(b, heads) && 0 < i <= |heads|
    ensures HasHead(heads[..i], Phi(v, b)) <==> HasHead(heads[..i - 1], Phi(v, b)) || v == heads[i - 1].id.of
  {
    var h0, h1 := heads[..i - 1], heads[..i];
    assert h1 == h0 + [heads[i - 1]];
    if HasHead(h0, Phi(v, b)) {
      var k :| 0 <= k < |h0| && h0[k].id == Phi(v, b);
      assert h1[k].id == Phi(v, b);
    }
    if HasHead(h1, Phi(v, b)) {
      var k :| 0 <= k < |h1| && h1[k].id == Phi(v, b);
      assert k < i - 1 ==> h0[k].id == Phi(v, b);
    }
    if v == heads[i - 1].id.of {
      assert h1[i - 1].id == Phi(v, b);
    }
  }

  lemma {:induction false} HeadEnvIs(b: Block, env: map<Value, Value>, heads: seq<Instr>, i: int, v: Value)
    requires PhiIdsAt(b, heads) && 0 <= i <= |heads|
    ensures v in HeadEnv(env, heads, i) <==> v in env || (v != Null && HasHead(heads[..i], Phi(v, b)))
    ensures v in HeadEnv(env, heads, i) ==>
              HeadEnv(env, heads, i)[v] == if v != Null && HasHead(heads[..i], Phi(v, b)) then Phi(v, b) else env[v]
  {
    if i > 0 {
      HeadEnvIs(b, env, heads, i - 1, v);
      HasHeadNext(b, heads, i, v);
      hide HasHead;
      assert heads[i - 1].id == Phi(heads[i - 1].id.of, b);
    } else {
      assert !HasHead(heads[..0], Phi(v, b));
    }
  }

  lemma HeadsPlaced(p: Problem, b: Block, heads: seq<Instr>, v: Value)
    requires p.Valid() && b in p.f.g.blocks && HeadShape(p, b, heads)
    ensures PhiIdsAt(b, heads) && b in p.phiVars
    ensures v != Null && HasHead(heads, Phi(v, b)) <==> v in p.phiVars[b]
  {
    EdgeVars(p, b);
  }

  lemma StartEnv(p: Problem, b: Block, v: Value)
    requires p.Valid() && b in p.f.g.blocks && Reachable(p.f.g, b)
    ensures b in p.phiVars
    ensures v in Start(p, b).env <==> v in p.phiVars[b] || v in InEnv(p, b)
    ensures v in Start(p, b).env ==> Start(p, b).env[v] == if v in p.phiVars[b] then Phi(v, b) else InEnv(p, b)[v]
  {
    EdgeVars(p, b);
    if b != p.f.g.Entry() {
      StartFromIdom(p, b);
    }
  }

  /** After all phis the definitions are those the block starts with. */
  lemma HeadEnvDone(p: Problem, b: Block, heads: seq<Instr>)
    requires p.Valid() && b in p.f.g.blocks && Reachable(p.f.g, b) && HeadShape(p, b, heads)
    ensures HeadEnv(InEnv(p, b), heads, |heads|) == Start(p, b).env
  {
    hide *;
    ProblemFacts(p, b);
    var n := |heads|;
    var env, env' := InEnv(p, b), Start(p, b).env;
    assert heads[..n] == heads;
    forall v
      ensures v in HeadEnv(env, heads, n) <==> v in env'
      ensures v in env' ==> HeadEnv(env, heads, n)[v] == env'[v]
    {
      HeadsPlaced(p, b, heads, v);
      HeadEnvIs(b, env, heads, n, v);
      StartEnv(p, b, v);
    }
  }

  lemma EdgeVars(p: Problem, b: Block)
    requires p.Valid() && b in p.f.g.blocks
    ensures b in p.phiVars && forall v :: v in p.phiVars[b] ==> v.Alloca? && v != Null
  {
    assert b in p.phiVars;
  }

  /** The variable whose stack an instruction of the walk pushes to. */
  function KeyOf(ins: Instr): Option<Value> {
    if ins.IsPhi() then if ins.id.Phi? then Some(ins.id.of) else None
    else if ins.IsCellStore() then Some(ins.operands[1])
    else None
  }

  function KeysUpTo(list: seq<Instr>, i: int): multiset<Value>
    requires 0 <= i <= |list|
  {
    if i == 0 then multiset{}
    else KeysUpTo(list, i - 1) + (match KeyOf(list[i - 1]) case Some(k) => multiset{k} case None => multiset{})
  }

  /** The promoted loads and stores of a block, in order. */
  function CellIds(list: seq<Instr>, i: int): seq<Value>
    requires 0 <= i <= |list|
  {
    if i == 0 then []
    else CellIds(list, i - 1) + (if list[i - 1].IsCellAccess() then [list[i - 1].id] else [])
  }

  /** Block b during the walk: heads, then the original instructions under sub. */
  ghost predicate Shown(p: Problem, b: Block, heads: seq<Instr>, sub: map<Value, Value>, list: seq<Instr>)
    requires b in p.f.code
  {
    list == heads + SubList(sub, p.f.code[b])
  }

  lemma ShownNow(p: Problem, b: Block, sub: map<Value, Value>, code0: map<Block, seq<Instr>>,
          code: map<Block, seq<Instr>>)
    requires p.Analysed() && b in p.f.g.blocks && Reachable(p.f.g, b) && CodeRenamed(p, b, sub, code0, code)
    ensures b in code0 && b in code && b in p.f.code
    ensures Shown(p, b, PhisOf(code0[b]), sub, code[b])
  {
    DomReflexive(p.f.g, b);
    assert BlockRenamed(p, b, sub, code0, code, b);
  }

  /** The instruction met at original position k, with its operands as of now. */
  lemma CurrentInstr(p: Problem, b: Block, k: int, heads: seq<Instr>, list: seq<Instr>)
    requires p.Valid() && b in p.f.g.blocks && Reachable(p.f.g, b) && 0 <= k < |p.f.code[b]|
    requires Shown(p, b, heads, At(p, b, k).sub, list)
    ensures |heads| + k < |list|
    ensures var ins := list[|heads| + k]; var o := p.f.code[b][k];
            && ins == SubInstr(At(p, b, k).sub, o) && ins.id == o.id && ins.op == o.op && !ins.IsPhi()
            && (ins.op.OpStore? ==> |ins.operands| == 2 && ins.operands[1] == o.operands[1]
                                    && (o.IsCellStore() <==> !ins.operands[1].Global? && !ins.operands[1].Gep?))
            && (ins.op.OpLoad? ==>
                  && |ins.operands| == 1 && (o.IsCellLoad() <==> ins.operands[0].Alloca?) && ins.operands[0] != Null
                  && (o.IsCellLoad() ==> ins.operands[0] == o.operands[0]))
  {
    BlockFacts(p, b);
    var ins, o, sub := list[|heads| + k], p.f.code[b][k], At(p, b, k).sub;
    StateOkAt(p, b, k);
    if o.op.OpStore? {
      assert o.operands[1] !in sub;
    } else if o.op.OpLoad? {
      var x := o.operands[0];
      assert x in o.operands;
      assert InScope(p.f, b, k, x);
      if x.Alloca? {
        assert x !in sub;
      } else {
        OperandStable(p, b, k, At(p, b, k), x);
      }
    }
  }

  lemma HeadKey(p: Problem, b: Block, heads: seq<Instr>, i: int)
    requires p.Valid() && b in p.f.g.blocks && HeadShape(p, b, heads) && 0 <= i < |heads|
    ensures heads[i].id.Phi? && heads[i].IsPhi() && KeyOf(heads[i]) == Some(heads[i].id.of)
    ensures heads[i].id.of == Null || heads[i].id.of.Alloca?
  {
    EdgeVars(p, b);
  }

  /** The definitions in force when the walk of b stands at list position i. */
  ghost function WalkEnv(p: Problem, b: Block, heads: seq<Instr>, i: int): map<Value, Value>
    requires p.Analysed() && b in p.f.g.blocks && Reachable(p.f.g, b) && 0 <= i <= |heads| + |p.f.code[b]|
  {
    if i <= |heads| then HeadEnv(InEnv(p, b), heads, i) else At(p, b, i - |heads|).env
  }

  lemma WalkEnvRest(p: Problem, b: Block, heads: seq<Instr>, k: int)
    requires p.Valid() && b in p.f.g.blocks && Reachable(p.f.g, b) && HeadShape(p, b, heads) && 0 <= k <= |p.f.code[b]|
    ensures WalkEnv(p, b, heads, |heads| + k) == At(p, b, k).env
  {
    hide Problem.Valid, Reachable, HeadShape, At, Start, InEnv, HeadEnv;
    ProblemFacts(p, b);
    if k == 0 {
      HeadEnvDone(p, b, heads);
      AtStart(p, b);
    }
  }
}
