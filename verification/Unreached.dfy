/** What the pass leaves of blocks that are never reached: their instructions, with
    the promoted loads among the operands replaced. */
module Unreached {
  import opened Cfg
  import opened Ir
  import opened Exec
  import opened Renaming
  import opened RenameState

  ghost predicate LoadAt(p: Problem, x: Value, d: Block, j: int)
    requires p.Analysed()
  {
    DefinedAt(p.f, x, d, j) && p.f.code[d][j].IsCellLoad() && d in p.f.g.blocks && Reachable(p.f.g, d)
  }

  /** What a value stands for after the pass: a promoted load for the definition it
      reads, any other value for itself. */
  ghost function Meaning(p: Problem, x: Value): Value
    requires p.Analysed()
  {
    if exists d, j :: LoadAt(p, x, d, j) then
      var d, j :| LoadAt(p, x, d, j);
      Sub(End(p, d).sub, x)
    else x
  }

  /** The operand is as it was, or the promoted load it was is replaced. */
  ghost predicate Follows(p: Problem, before: Value, after: Value)
    requires p.Analysed()
  {
    after == before || (Promoted(p, before) && after == Meaning(p, before))
  }

  ghost predicate InstrFollows(p: Problem, before: Instr, after: Instr)
    requires p.Analysed()
  {
    && after.id == before.id && after.op == before.op && |after.operands| == |before.operands|
    && forall k :: 0 <= k < |before.operands| ==> Follows(p, before.operands[k], after.operands[k])
  }

  ghost predicate ListFollows(p: Problem, before: seq<Instr>, after: seq<Instr>)
    requires p.Analysed()
  {
    |after| == |before| && forall i :: 0 <= i < |before| ==> InstrFollows(p, before[i], after[i])
  }

  ghost predicate Unvisited(p: Problem, c: Block)
    requires p.Analysed()
  {
    !(c in p.f.g.blocks && Reachable(p.f.g, c))
  }

  ghost predicate UnreachedFollow(p: Problem, code0: map<Block, seq<Instr>>, code: map<Block, seq<Instr>>)
    requires p.Analysed()
  {
    && code.Keys == code0.Keys
    && forall c :: c in code0 && Unvisited(p, c) ==> ListFollows(p, code0[c], code[c])
  }

  // ---------- what a load is replaced by ----------

  lemma LoadOnce(p: Problem, x: Value, d: Block, j: int, e: Block, k: int)
    requires p.Valid() && LoadAt(p, x, d, j) && LoadAt(p, x, e, k)
    ensures d == e && j == k
  {
    hide Problem.Analysed, Reachable, LoadsDefined, Problem.PhisPlaced, UsesOk, BlocksShaped, StoresOk;
  }

  /** A promoted load stands for the definition the walk finds, and that is no
      promoted load. */
  lemma MeaningIs(p: Problem, b: Block, k: int)
    requires p.Valid() && b in p.f.g.blocks && Reachable(p.f.g, b) && 0 <= k < |p.f.code[b]|
        && p.f.code[b][k].IsCellLoad()
    ensures p.f.code[b][k].operands[0] in At(p, b, k).env
    ensures var x := p.f.code[b][k].id;
      Promoted(p, x) && Meaning(p, x) == At(p, b, k).env[p.f.code[b][k].operands[0]] && !Promoted(p, Meaning(p, x))
  {
    hide Problem.Valid, Reachable, At, Promoted;
    ProblemFacts(p, b);
    var x := p.f.code[b][k].id;
    PromotedAt(p, b, k);
    assert LoadAt(p, x, b, k);
    TopFits(p, b, k);
    SubAtEnd(p, b, k);
    var d, j :| LoadAt(p, x, d, j) && Meaning(p, x) == Sub(End(p, d).sub, x);
    LoadOnce(p, x, b, k, d, j);
  }

  /** The replacement made at a load is still there at the end of its block. */
  lemma SubAtEnd(p: Problem, b: Block, k: int)
    requires p.Valid() && b in p.f.g.blocks && Reachable(p.f.g, b) && 0 <= k < |p.f.code[b]|
        && p.f.code[b][k].IsCellLoad() && p.f.code[b][k].operands[0] in At(p, b, k).env
    ensures Sub(End(p, b).sub, p.f.code[b][k].id) == At(p, b, k).env[p.f.code[b][k].operands[0]]
  {
    ProblemFacts(p, b);
    var x, n := p.f.code[b][k].id, |p.f.code[b]|;
    IdsApart(p, b, k);
    hide Problem.Valid, Problem.Analysed, Reachable, Start;
    WalkKeepsSub(p.f, b, k + 1, n, Start(p, b), x);
  }

  lemma IdsApart(p: Problem, b: Block, k: int)
    requires p.Valid() && b in p.f.code && 0 <= k < |p.f.code[b]|
    ensures forall j :: 0 <= j < |p.f.code[b]| && j != k ==> p.f.code[b][j].id != p.f.code[b][k].id
  {
    hide Problem.Analysed, Reachable, LoadsDefined, Problem.PhisPlaced, UsesOk, BlocksShaped, StoresOk;
  }

  lemma MeaningStays(p: Problem, x: Value)
    requires p.Valid() && Promoted(p, x)
    ensures !Promoted(p, Meaning(p, x))
  {
    ShapedBlocks(p);
    hide Problem.Valid, Problem.Analysed, Reachable, Meaning, At;
    var c, j :| DefinedAt(p.f, x, c, j) && p.f.code[c][j].IsCellLoad() && Reachable(p.f.g, c);
    MeaningIs(p, c, j);
  }

  lemma ShapedBlocks(p: Problem)
    requires p.Valid()
    ensures p.Analysed() && p.f.g.Valid() && forall c :: c in p.f.code ==> c in p.f.g.blocks
  {
  }

  lemma MeaningOfOther(p: Problem, x: Value)
    requires p.Analysed() && !Promoted(p, x)
    ensures Meaning(p, x) == x
  {
    hide Problem.Analysed, Reachable;
    forall d, j ensures !LoadAt(p, x, d, j) {}
  }

  // ---------- step by step ----------

  lemma FollowSelf(p: Problem, code: map<Block, seq<Instr>>)
    requires p.Analysed()
    ensures UnreachedFollow(p, code, code)
  {
    hide Problem.Analysed, Promoted, Meaning;
  }

  lemma FollowThen(p: Problem, a: map<Block, seq<Instr>>, b: map<Block, seq<Instr>>, c: map<Block, seq<Instr>>)
    requires p.Valid() && p.Analysed() && UnreachedFollow(p, a, b) && UnreachedFollow(p, b, c)
    ensures UnreachedFollow(p, a, c)
  {
    hide Problem.Valid, Problem.Analysed, Promoted, Meaning, Unvisited;
    forall x, i, k | x in a && Unvisited(p, x) && 0 <= i < |a[x]| && 0 <= k < |a[x][i].operands|
      ensures |c[x]| == |a[x]| && |c[x][i].operands| == |a[x][i].operands|
      ensures Follows(p, a[x][i].operands[k], c[x][i].operands[k])
    {
      assert ListFollows(p, a[x], b[x]) && ListFollows(p, b[x], c[x]);
      assert InstrFollows(p, a[x][i], b[x][i]) && InstrFollows(p, b[x][i], c[x][i]);
      var u := a[x][i].operands[k];
      assert Follows(p, u, b[x][i].operands[k]) && Follows(p, b[x][i].operands[k], c[x][i].operands[k]);
      if Promoted(p, u) { MeaningStays(p, u); }
    }
    forall x | x in a && Unvisited(p, x) ensures ListFollows(p, a[x], c[x]) {
      assert ListFollows(p, a[x], b[x]) && ListFollows(p, b[x], c[x]);
      forall i | 0 <= i < |a[x]| ensures InstrFollows(p, a[x][i], c[x][i]) {
        assert InstrFollows(p, a[x][i], b[x][i]) && InstrFollows(p, b[x][i], c[x][i]);
      }
    }
  }

  lemma ReplaceFollows(p: Problem, d: Value, o: Value, ins: Instr)
    requires p.Analysed() && Promoted(p, d) && Meaning(p, d) == o
    ensures InstrFollows(p, ins, SubInstr(map[d := o], ins))
  {
    hide Problem.Analysed, Promoted, Meaning;
  }

  /** Replacing the promoted load at (b, k). */
  lemma FollowReplace(p: Problem, b: Block, k: int, code: map<Block, seq<Instr>>)
    requires p.Valid() && b in p.f.g.blocks && Reachable(p.f.g, b) && 0 <= k < |p.f.code[b]|
        && p.f.code[b][k].IsCellLoad()
    ensures p.f.code[b][k].operands[0] in At(p, b, k).env
    ensures UnreachedFollow(p, code,
        ReplaceUses(code, p.f.code[b][k].id, At(p, b, k).env[p.f.code[b][k].operands[0]]))
  {
    hide Problem.Valid, Problem.Analysed, Promoted, Meaning, UnreachedFollow, At, Reachable, ReplaceUses;
    ProblemFacts(p, b);
    MeaningIs(p, b, k);
    FollowMeaning(p, p.f.code[b][k].id, At(p, b, k).env[p.f.code[b][k].operands[0]], code);
  }

  lemma ListReplaced(p: Problem, d: Value, o: Value, list: seq<Instr>)
    requires p.Analysed() && Promoted(p, d) && Meaning(p, d) == o
    ensures ListFollows(p, list, SubList(map[d := o], list))
  {
    hide Problem.Analysed, Promoted, Meaning, InstrFollows, SubInstr;
    forall i | 0 <= i < |list| ensures InstrFollows(p, list[i], SubInstr(map[d := o], list[i])) {
      ReplaceFollows(p, d, o, list[i]);
    }
  }

  lemma FollowMeaning(p: Problem, d: Value, o: Value, code: map<Block, seq<Instr>>)
    requires p.Analysed() && Promoted(p, d) && Meaning(p, d) == o
    ensures UnreachedFollow(p, code, ReplaceUses(code, d, o))
  {
    hide Problem.Analysed, Promoted, Meaning, ListFollows, SubList, Unvisited;
    forall c | c in code ensures ListFollows(p, code[c], SubList(map[d := o], code[c])) {
      ListReplaced(p, d, o, code[c]);
    }
  }

  /** Changing a block that is reached. */
  lemma FollowElsewhere(p: Problem, code: map<Block, seq<Instr>>, s: Block, list: seq<Instr>)
    requires p.Analysed() && s in p.f.g.blocks && Reachable(p.f.g, s) && s in code
    ensures UnreachedFollow(p, code, code[s := list])
  {
    hide Problem.Analysed, Promoted, Meaning, Reachable;
  }

  // ---------- the result ----------

  /** The instruction with its operands replaced by what they stand for. */
  ghost predicate InstrMeans(p: Problem, before: Instr, after: Instr)
    requires p.Analysed()
  {
    && after.id == before.id && after.op == before.op && |after.operands| == |before.operands|
    && forall k :: 0 <= k < |before.operands| ==> after.operands[k] == Meaning(p, before.operands[k])
  }

  /** Blocks that are never reached keep their instructions behind the phis they got. */
  ghost predicate UnreachedKept(p: Problem, code: map<Block, seq<Instr>>)
    requires p.Analysed()
  {
    forall c :: c in p.f.code && Unvisited(p, c) ==>
      && c in code && |RestOf(code[c])| == |p.f.code[c]|
      && forall i :: 0 <= i < |p.f.code[c]| ==> InstrMeans(p, p.f.code[c][i], RestOf(code[c])[i])
  }

  lemma {:induction false} FollowPhiCount(p: Problem, before: seq<Instr>, after: seq<Instr>)
    requires p.Analysed() && ListFollows(p, before, after)
    ensures PhiCount(after) == PhiCount(before)
  {
    hide Problem.Analysed, Promoted, Meaning;
    if |before| > 0 && before[0].IsPhi() {
      forall i | 0 <= i < |before[1..]| ensures InstrFollows(p, before[1..][i], after[1..][i]) {
        assert InstrFollows(p, before[i + 1], after[i + 1]);
      }
      FollowPhiCount(p, before[1..], after[1..]);
    }
  }

  lemma KeptBlock(p: Problem, c: Block, before: seq<Instr>, after: seq<Instr>)
    requires p.Valid() && p.Analysed() && c in p.f.code && RestOf(before) == p.f.code[c]
    requires ListFollows(p, before, after)
    requires forall i, o :: 0 <= i < |after| && o in after[i].operands ==> !Promoted(p, o)
    ensures |RestOf(after)| == |p.f.code[c]|
    ensures forall i :: 0 <= i < |p.f.code[c]| ==> InstrMeans(p, p.f.code[c][i], RestOf(after)[i])
  {
    hide Problem.Valid, Problem.Analysed, Promoted, Meaning;
    FollowPhiCount(p, before, after);
    var n := PhiCount(before);
    forall i | 0 <= i < |p.f.code[c]| ensures InstrMeans(p, p.f.code[c][i], RestOf(after)[i]) {
      assert InstrFollows(p, before[n + i], after[n + i]);
      var ins, ins' := before[n + i], after[n + i];
      forall k | 0 <= k < |ins.operands| ensures ins'.operands[k] == Meaning(p, ins.operands[k]) {
        assert ins'.operands[k] in ins'.operands;
        assert Follows(p, ins.operands[k], ins'.operands[k]);
        if !Promoted(p, ins.operands[k]) { MeaningOfOther(p, ins.operands[k]); }
      }
    }
  }
}
