/** The stack frame of a function: one slot for every argument and result, and
    below the slot of an alloca the bytes it allocates. */
module FrameLayout {
  import opened Bits
  import opened TypedIr

  const PROLOGUE_OFFSET_BASE: int := 16
  const PROLOGUE_ALIGN: nat := 16

  /** The offset of every name from the frame pointer, and the size of the frame. */
  datatype Layout = Layout(off: map<nat, int>, size: nat)

  /** First and past-the-end offset of what belongs to v: its slot and, below it, its body. */
  function Low(decls: map<nat, Decl>, off: map<nat, int>, v: nat): int
    requires v in off && v in decls
  {
    off[v] - decls[v].body
  }

  function High(decls: map<nat, Decl>, off: map<nat, int>, v: nat): int
    requires v in off && v in decls
  {
    off[v] + decls[v].ty.Size()
  }

  /** Everything placed so far lies between the saved registers and depth top,
      slots are aligned to their size, and nothing overlaps. */
  ghost predicate Placed(decls: map<nat, Decl>, off: map<nat, int>, top: int) {
    && (forall v :: v in off ==> v in decls)
    && (forall v :: v in off ==> -top <= Low(decls, off, v) && High(decls, off, v) <= -PROLOGUE_OFFSET_BASE)
    && (forall v :: v in off ==> Aligned(off[v], decls[v].ty))
    && (forall v, w :: v in off && w in off && v != w ==> Apart(decls, off, v, w))
  }

  ghost predicate Apart(decls: map<nat, Decl>, off: map<nat, int>, v: nat, w: nat)
    requires v in off && w in off && v in decls && w in decls
  {
    High(decls, off, v) <= Low(decls, off, w) || High(decls, off, w) <= Low(decls, off, v)
  }

  /** The natural alignment of a type. */
  predicate Aligned(x: int, t: Ty) {
    match t
    case I1 => true
    case I32 => x % 4 == 0
    case Ptr => x % 8 == 0
  }

  /** The names a frame holds: the arguments and the results of non-void instructions. */
  ghost predicate Named(f: Fn, v: nat) {
    || (exists i :: 0 <= i < |f.args| && f.args[i].id == v)
    || (exists b, i :: b in f.code && 0 <= i < |f.code[b]| && !f.code[b][i].IsVoid() && f.code[b][i].id == v)
  }

  /** Blocks have code, declarations match, and no name is defined twice. */
  ghost predicate FnOk(f: Fn) {
    && (forall b :: b in f.blocks <==> b in f.code)
    && (forall i :: 0 <= i < |f.args| ==> f.args[i].id in f.decls && f.decls[f.args[i].id] == Decl(f.args[i].ty, 0))
    && (forall b, i :: b in f.code && 0 <= i < |f.code[b]| ==> InstOk(f.decls, f.code[b][i]))
  }

  /** No two arguments or instructions define the same name, no block is listed twice. */
  ghost predicate NamesDistinct(f: Fn) {
    && (forall i, j :: 0 <= i < j < |f.blocks| ==> f.blocks[i] != f.blocks[j])
    && (forall i, j :: 0 <= i < j < |f.args| ==> f.args[i].id != f.args[j].id)
    && (forall i, b, j :: 0 <= i < |f.args| && b in f.code && 0 <= j < |f.code[b]| && !f.code[b][j].IsVoid() ==>
          f.args[i].id != f.code[b][j].id)
    && (forall b, i, c, j ::
          (&& b in f.code && c in f.code && 0 <= i < |f.code[b]| && 0 <= j < |f.code[c]|
           && !f.code[b][i].IsVoid() && !f.code[c][j].IsVoid() && f.code[b][i].id == f.code[c][j].id) ==>
               b == c && i == j)
  }

  /** A frame in which every name has a place. */
  ghost predicate RoomFor(f: Fn, l: Layout) {
    && (forall v :: v in l.off <==> Named(f, v))
    && Placed(f.decls, l.off, l.size)
    && l.size % PROLOGUE_ALIGN == 0
    && l.size >= PROLOGUE_OFFSET_BASE
  }

  // ---------- the frame of the source ----------

  /** Named by an argument before n. */
  ghost predicate ArgNamed(f: Fn, n: nat, v: nat) {
    exists i :: 0 <= i < n && i < |f.args| && f.args[i].id == v
  }

  /** Named in a block before k, or in block k before instruction n. */
  ghost predicate CodeNamed(f: Fn, k: nat, n: nat, v: nat) {
    exists j, i :: 0 <= j < |f.blocks| && f.blocks[j] in f.code && 0 <= i < |f.code[f.blocks[j]]| &&
      (j < k || (j == k && i < n)) && DefinesName(f.code[f.blocks[j]][i], v)
  }

  predicate DefinesName(ins: Inst, v: nat) {
    !ins.IsVoid() && ins.id == v
  }

  /** Named before argument k. */
  ghost function BeforeArg(f: Fn, k: nat): nat -> bool {
    (v: nat) => ArgNamed(f, k, v)
  }

  /** Named before instruction n of block k: by an argument or an earlier instruction. */
  ghost function BeforeInst(f: Fn, k: nat, n: nat): nat -> bool {
    (v: nat) => ArgNamed(f, |f.args|, v) || CodeNamed(f, k, n, v)
  }

  /** A slot that ends at top is below the saved registers and all names before it. */
  ghost predicate Below(decls: map<nat, Decl>, off: map<nat, int>, before: nat -> bool, top: int) {
    top <= -16 && forall w :: w in off && w in decls && before(w) ==> top <= Low(decls, off, w)
  }

  /** The slot of v is the highest aligned place below the names before it. */
  ghost predicate Highest(decls: map<nat, Decl>, off: map<nat, int>, before: nat -> bool, v: nat) {
    && v in off && v in decls
    && Aligned(off[v], decls[v].ty) && Below(decls, off, before, off[v] + decls[v].ty.Size())
    && forall x :: Aligned(x, decls[v].ty) && Below(decls, off, before, x + decls[v].ty.Size()) ==> x <= off[v]
  }

  /** Slots are handed out downwards, arguments first, then results block by block. */
  ghost predicate InOrder(f: Fn, off: map<nat, int>) {
    && (forall k :: 0 <= k < |f.args| ==> Highest(f.decls, off, BeforeArg(f, k), f.args[k].id))
    && (forall k, n ::
          (0 <= k < |f.blocks| && f.blocks[k] in f.code && 0 <= n < |f.code[f.blocks[k]]|
              && !f.code[f.blocks[k]][n].IsVoid()) ==>
          Highest(f.decls, off, BeforeInst(f, k, n), f.code[f.blocks[k]][n].id))
  }

  /** The frame for f: every name has the highest place left for it, and the size
      is the least multiple of 16 that holds them all. */
  ghost predicate FrameFor(f: Fn, l: Layout) {
    && RoomFor(f, l)
    && InOrder(f, l.off)
    && forall s: int :: s % 16 == 0 && s >= 16 && Placed(f.decls, l.off, s) ==> l.size <= s
  }

  lemma NextAligned(top: nat, t: Ty)
    ensures Aligned(0 - AlignUp(top + t.Size(), t.Size()), t)
  {
    hide AlignUp;
    var at := AlignUp(top + t.Size(), t.Size());
    match t
    case I1 =>
    case I32 => assert at % 4 == 0;
    case Ptr => assert at % 8 == 0;
  }

  /** A place at depth at leaves the others where they are and is below them. */
  lemma BelowOthers(decls: map<nat, Decl>, off: map<nat, int>, top: int, v: nat, at: int, w: nat)
    requires Placed(decls, off, top) && v in decls && v !in off && w in off && at >= top + decls[v].ty.Size()
    ensures var off' := off[v := -at];
      && Low(decls, off', w) == Low(decls, off, w) >= -top
      && High(decls, off', w) == High(decls, off, w)
      && High(decls, off', v) <= Low(decls, off', w)
  {
  }

  /** Placing a new name below everything else. */
  lemma PlaceNext(decls: map<nat, Decl>, off: map<nat, int>, top: nat, v: nat)
    requires Placed(decls, off, top) && v in decls && v !in off && top >= PROLOGUE_OFFSET_BASE
    ensures var n := decls[v].ty.Size();
      var at := AlignUp(top + n, n);
      at >= top + n && Placed(decls, off[v := 0 - at], at + decls[v].body)
  {
    hide AlignUp, Aligned;
    var n := decls[v].ty.Size();
    var at: int := AlignUp(top + n, n);
    NextAligned(top, decls[v].ty);
    PlaceAt(decls, off, top, v, at);
  }

  lemma PlaceAt(decls: map<nat, Decl>, off: map<nat, int>, top: int, v: nat, at: int)
    requires Placed(decls, off, top) && v in decls && v !in off && top >= PROLOGUE_OFFSET_BASE
    requires at >= top + decls[v].ty.Size() && Aligned(-at, decls[v].ty)
    ensures Placed(decls, off[v := -at], at + decls[v].body)
  {
    hide Aligned;
    var off' := off[v := -at];
    forall w | w in off ensures Low(decls, off', w) >= -top && High(decls, off', w) == High(decls, off, w) {
      BelowOthers(decls, off, top, v, at, w);
    }
    forall w, x | w in off' && x in off' && w != x ensures Apart(decls, off', w, x) {
      if w == v {
        BelowOthers(decls, off, top, v, at, x);
      } else if x == v {
        BelowOthers(decls, off, top, v, at, w);
      } else {
        BelowOthers(decls, off, top, v, at, x);
        BelowOthers(decls, off, top, v, at, w);
        assert Apart(decls, off, w, x);
      }
    }
  }

  // ---------- nothing is wasted ----------

  /** No smaller depth holds what is placed. */
  ghost predicate Deepest(decls: map<nat, Decl>, off: map<nat, int>, top: int) {
    forall s: int :: s >= 16 && Placed(decls, off, s) ==> top <= s
  }

  /** A slot that clears everything placed ends at or below the depth used. */
  lemma BelowAll(decls: map<nat, Decl>, off: map<nat, int>, before: nat -> bool, top: int, x: int)
    requires Placed(decls, off, top) && Deepest(decls, off, top) && Below(decls, off, before, x)
    requires forall w :: w in off ==> before(w)
    ensures x <= -top
  {
    hide Aligned, Apart;
    assert Placed(decls, off, -x);
  }

  lemma MultipleAbove(x: int, y: nat, t: Ty)
    requires Aligned(-x, t) && x >= y
    ensures x >= AlignUp(y, t.Size())
  {
    hide AlignUp;
    var at := AlignUp(y, t.Size());
    match t
    case I1 =>
    case I32 => assert at % 4 == 0 && at < y + 4;
    case Ptr => assert at % 8 == 0 && at < y + 8;
  }

  /** The next slot down is the highest place left, and the depth stays the least. */
  lemma HighestNext(decls: map<nat, Decl>, off: map<nat, int>, before: nat -> bool, top: nat, v: nat)
    requires Placed(decls, off, top) && Deepest(decls, off, top) && v in decls && v !in off && top >= 16
    requires forall w :: before(w) <==> w in off
    ensures var n := decls[v].ty.Size();
      var at: int := AlignUp(top + n, n);
      Highest(decls, off[v := -at], before, v) && Deepest(decls, off[v := -at], at + decls[v].body)
  {
    hide AlignUp, Aligned, Deepest;
    var n, t := decls[v].ty.Size(), decls[v].ty;
    var at: int := AlignUp(top + n, n);
    var off' := off[v := -at];
    NextAligned(top, t);
    forall w | w in off ensures Low(decls, off', w) == Low(decls, off, w) >= 0 - top {
      BelowOthers(decls, off, top, v, at, w);
    }
    forall x | Aligned(x, t) && Below(decls, off', before, x + n) ensures x <= -at {
      SameBelow(decls, off, off', before, x + n);
      BelowAll(decls, off, before, top, x + n);
      MultipleAbove(-x, top + n, t);
    }
    DeepestNext(decls, off', v, at);
  }

  lemma SameBelow(decls: map<nat, Decl>, off: map<nat, int>, off': map<nat, int>, before: nat -> bool, x: int)
    requires Below(decls, off', before, x)
    requires forall w :: w in off && before(w) ==> w in off' && off'[w] == off[w]
    ensures Below(decls, off, before, x)
  {
    forall w | w in off && w in decls && before(w) ensures x <= Low(decls, off, w) {
      assert x <= Low(decls, off', w);
    }
  }

  lemma DeepestNext(decls: map<nat, Decl>, off: map<nat, int>, v: nat, at: int)
    requires v in off && v in decls && off[v] == -at
    ensures Deepest(decls, off, at + decls[v].body)
  {
    hide Aligned, Apart;
    assert Low(decls, off, v) == -(at + decls[v].body);
  }

  /** A later name does not change where an earlier one had to go. */
  lemma HighestStays(decls: map<nat, Decl>, off: map<nat, int>, before: nat -> bool, v: nat, u: nat, at: int)
    requires Highest(decls, off, before, v) && u !in off && !before(u)
    ensures Highest(decls, off[u := at], before, v)
  {
    hide Aligned;
    var off' := off[u := at];
    SameBelow(decls, off', off, before, off[v] + decls[v].ty.Size());
    forall x | Aligned(x, decls[v].ty) && Below(decls, off', before, x + decls[v].ty.Size()) ensures x <= off[v] {
      SameBelow(decls, off, off', before, x + decls[v].ty.Size());
    }
  }

  /** The body of an alloca is aligned for the 4-byte elements of its array. */
  lemma BodyAligned(f: Fn, l: Layout, v: nat)
    requires RoomFor(f, l) && v in l.off && f.decls[v].ty == Ptr && f.decls[v].body % 4 == 0
    ensures Low(f.decls, l.off, v) % 4 == 0
  {
    assert l.off[v] % 8 == 0;
  }

  /** Byte a belongs to the slot of some name, for frame pointer fp. */
  ghost predicate InSlot(decls: map<nat, Decl>, off: map<nat, int>, fp: int, a: int) {
    exists v :: v in off && v in decls && fp + off[v] <= a < fp + High(decls, off, v)
  }

  /** The bytes a body hands out belong to no slot and are clear of the saved registers. */
  lemma BodyFree(decls: map<nat, Decl>, off: map<nat, int>, top: int, fp: int, v: nat, a: int)
    requires Placed(decls, off, top) && v in off && fp + Low(decls, off, v) <= a < fp + off[v]
    ensures !InSlot(decls, off, fp, a) && fp - top <= a < fp - PROLOGUE_OFFSET_BASE
  {
    forall w | w in off && w in decls ensures !(fp + off[w] <= a < fp + High(decls, off, w)) {
      if w != v { assert Apart(decls, off, v, w); }
    }
  }
}
