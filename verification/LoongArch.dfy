/** The part of the LoongArch machine that the generated code uses: LoongArch
    Reference Manual, Volume 1, section 2.2. Registers hold signed 64-bit numbers,
    memory holds bytes. */
module LoongArch {
  import opened Bits

  type Reg = r: nat | r < 32
  type Regs = s: seq<int> | |s| == 32 witness seq(32, _ => 0)

  const ZERO: Reg := 0
  const RA: Reg := 1
  const SP: Reg := 3
  const A0: Reg := 4
  const T0: Reg := 12
  const T1: Reg := 13
  const T2: Reg := 14
  const T3: Reg := 15
  const T4: Reg := 16
  const T8: Reg := 20
  const FP: Reg := 22

  // ---------- memory ----------

  type Bytes = map<int, int>

  function ByteAt(m: Bytes, a: int): int {
    if a in m then m[a] % 256 else 0
  }

  function Pow256(n: nat): (r: int)
    ensures r > 0
  {
    if n == 0 then 1 else 256 * Pow256(n - 1)
  }

  /** Write the low n bytes of v, least significant first. */
  function Write(m: Bytes, a: int, n: nat, v: int): Bytes
    decreases n
  {
    if n == 0 then m else Write(m[a := v % 256], a + 1, n - 1, v / 256)
  }

  function ReadU(m: Bytes, a: int, n: nat): (r: int)
    ensures 0 <= r < Pow256(n)
    decreases n
  {
    if n == 0 then 0 else ByteAt(m, a) + 256 * ReadU(m, a + 1, n - 1)
  }

  function SignedBytes(u: int, n: nat): int {
    if 2 * u >= Pow256(n) then u - Pow256(n) else u
  }

  function Read(m: Bytes, a: int, n: nat): int {
    SignedBytes(ReadU(m, a, n), n)
  }

  /** n bytes hold the number with its sign. */
  predicate Fits(v: int, n: nat) {
    -Pow256(n) <= 2 * v < Pow256(n)
  }

  lemma {:induction false} WriteElsewhere(m: Bytes, a: int, n: nat, v: int, b: int)
    requires b < a || a + n <= b
    ensures ByteAt(Write(m, a, n, v), b) == ByteAt(m, b)
    decreases n
  {
    if n > 0 { WriteElsewhere(m[a := v % 256], a + 1, n - 1, v / 256, b); }
  }

  lemma {:induction false} ReadSame(m: Bytes, m2: Bytes, a: int, n: nat)
    requires forall b :: a <= b < a + n ==> ByteAt(m, b) == ByteAt(m2, b)
    ensures ReadU(m, a, n) == ReadU(m2, a, n)
    decreases n
  {
    if n > 0 { ReadSame(m, m2, a + 1, n - 1); }
  }

  lemma {:induction false} ReadWritten(m: Bytes, a: int, n: nat, v: int)
    ensures ReadU(Write(m, a, n, v), a, n) == v % Pow256(n)
    decreases n
  {
    if n > 0 {
      var m1 := m[a := v % 256];
      assert ByteAt(m1, a) == v % 256;
      hide ByteAt;
      WriteElsewhere(m1, a + 1, n - 1, v / 256, a);
      ReadWritten(m1, a + 1, n - 1, v / 256);
      ModSplit(v, Pow256(n - 1));
    }
  }

  lemma ModSplit(v: int, p: int)
    requires p > 0
    ensures v % (256 * p) == v % 256 + 256 * ((v / 256) % p)
  {
    var q := (v / 256) / p;
    var r := (v / 256) % p;
    DivMod(v / 256, p);
    assert v == 256 * (q * p + r) + v % 256;
    assert 256 * (q * p) == (256 * p) * q;
    ModUnique(v, 256 * p, q, 256 * r + v % 256);
  }

  /** A number that fits is read back. */
  lemma ReadBack(m: Bytes, a: int, n: nat, v: int)
    requires Fits(v, n)
    ensures Read(Write(m, a, n, v), a, n) == v
  {
    ReadWritten(m, a, n, v);
    var p := Pow256(n);
    if v >= 0 {
      ModUnique(v, p, 0, v);
    } else {
      ModUnique(v, p, -1, v + p);
    }
  }

  lemma ReadElsewhere(m: Bytes, a: int, n: nat, v: int, b: int, k: nat)
    requires b + k <= a || a + n <= b
    ensures Read(Write(m, a, n, v), b, k) == Read(m, b, k)
  {
    forall c | b <= c < b + k ensures ByteAt(Write(m, a, n, v), c) == ByteAt(m, c) {
      WriteElsewhere(m, a, n, v, c);
    }
    ReadSame(Write(m, a, n, v), m, b, k);
  }

  lemma Sizes()
    ensures Pow256(1) == 256 && Pow256(4) == TWO_32 && Pow256(8) == TWO_64
  {
    assert Pow256(2) == 0x1_0000;
    assert Pow256(6) == 0x1_0000_0000_0000;
  }

  // ---------- instructions ----------

  datatype Instr =
    | AddiW(rd: Reg, rj: Reg, imm: int)
    | AddiD(rd: Reg, rj: Reg, imm: int)
    | Lu12iW(rd: Reg, imm: int)
    | Ori(rd: Reg, rj: Reg, imm: int)
    | Lu32iD(rd: Reg, imm: int)
    | Lu52iD(rd: Reg, rj: Reg, imm: int)
    | AddW(rd: Reg, rj: Reg, rk: Reg)
    | SubW(rd: Reg, rj: Reg, rk: Reg)
    | MulW(rd: Reg, rj: Reg, rk: Reg)
    | DivW(rd: Reg, rj: Reg, rk: Reg)
    | AddD(rd: Reg, rj: Reg, rk: Reg)
    | SubD(rd: Reg, rj: Reg, rk: Reg)
    | MulD(rd: Reg, rj: Reg, rk: Reg)
    | Slt(rd: Reg, rj: Reg, rk: Reg)
    | Slti(rd: Reg, rj: Reg, imm: int)
    | Or(rd: Reg, rj: Reg, rk: Reg)
    | Ld(size: nat, rd: Reg, rj: Reg, imm: int)
    | St(size: nat, rd: Reg, rj: Reg, imm: int)
    | La(rd: Reg, symbol: nat)
    | B(target: int)
    | Beqz(rj: Reg, target: int)
    | Jr(rj: Reg)
  {
    /** The immediate fits the field of the instruction. */
    predicate Encodable() {
      match this
      case AddiW(_, _, i) => -2048 <= i <= 2047
      case AddiD(_, _, i) => -2048 <= i <= 2047
      case Lu12iW(_, i) => -0x8_0000 <= i < 0x8_0000
      case Ori(_, _, i) => 0 <= i <= 4095
      case Lu32iD(_, i) => -0x8_0000 <= i < 0x8_0000
      case Lu52iD(_, _, i) => -2048 <= i <= 2047
      case Slti(_, _, i) => -2048 <= i <= 2047
      case Ld(n, _, _, i) => (n == 1 || n == 4 || n == 8) && -2048 <= i <= 2047
      case St(n, _, _, i) => (n == 1 || n == 4 || n == 8) && -2048 <= i <= 2047
      case _ => true
    }
  }

  predicate Encodable(code: seq<Instr>) {
    forall i :: 0 <= i < |code| ==> code[i].Encodable()
  }

  datatype State = State(regs: Regs, mem: Bytes) {
    function Get(r: Reg): int { if r == ZERO then 0 else regs[r] }
    function Set(r: Reg, v: int): State { if r == ZERO then this else this.(regs := regs[r := v]) }

    /** Registers hold 64-bit numbers. */
    predicate Ok() { forall r :: 0 <= r < 32 ==> IsInt64(regs[r]) }
  }

  /** Where control goes when the instructions at hand stop: past their end, to
      a label, or to an address. */
  datatype Next = Fall | To(block: int) | At(address: int)

  datatype Stop = Stop(s: State, next: Next)

  /** The quotient of two words. The manual leaves the result of a division by zero
      open; it is 0 here and nothing relies on it. */
  function DivWord(x: int, y: int): int {
    if y == 0 then 0 else Signed32(Quotient(x, y))
  }

  /** One instruction that continues with the following one. */
  function Effect(sym: nat -> int, ins: Instr, s: State): State {
    match ins
    case AddiW(rd, rj, i) => s.Set(rd, Signed32(s.Get(rj) + i))
    case AddiD(rd, rj, i) => s.Set(rd, Signed64(s.Get(rj) + i))
    case Lu12iW(rd, i) => s.Set(rd, i * 0x1000)
    case Ori(rd, rj, i) => s.Set(rd, OrBits(s.Get(rj), i, 64))
    case Lu32iD(rd, i) => s.Set(rd, i * TWO_32 + s.Get(rd) % TWO_32)
    case Lu52iD(rd, rj, i) => s.Set(rd, i * TWO_52 + s.Get(rj) % TWO_52)
    case AddW(rd, rj, rk) => s.Set(rd, Signed32(s.Get(rj) + s.Get(rk)))
    case SubW(rd, rj, rk) => s.Set(rd, Signed32(s.Get(rj) - s.Get(rk)))
    case MulW(rd, rj, rk) => s.Set(rd, Signed32(s.Get(rj) * s.Get(rk)))
    case DivW(rd, rj, rk) => s.Set(rd, DivWord(Signed32(s.Get(rj)), Signed32(s.Get(rk))))
    case AddD(rd, rj, rk) => s.Set(rd, Signed64(s.Get(rj) + s.Get(rk)))
    case SubD(rd, rj, rk) => s.Set(rd, Signed64(s.Get(rj) - s.Get(rk)))
    case MulD(rd, rj, rk) => s.Set(rd, Signed64(s.Get(rj) * s.Get(rk)))
    case Slt(rd, rj, rk) => s.Set(rd, if s.Get(rj) < s.Get(rk) then 1 else 0)
    case Slti(rd, rj, i) => s.Set(rd, if s.Get(rj) < i then 1 else 0)
    case Or(rd, rj, rk) => s.Set(rd, OrBits(s.Get(rj), s.Get(rk), 64))
    case Ld(n, rd, rj, i) => s.Set(rd, Read(s.mem, Signed64(s.Get(rj) + i), n))
    case St(n, rd, rj, i) => s.(mem := Write(s.mem, Signed64(s.Get(rj) + i), n, s.Get(rd)))
    case La(rd, g) => s.Set(rd, Signed64(sym(g)))
    case _ => s
  }

  /** Run a list of instructions until control leaves it. */
  function Exec(sym: nat -> int, code: seq<Instr>, s: State): Stop
    decreases |code|
  {
    if |code| == 0 then Stop(s, Fall)
    else
      match code[0]
      case B(l) => Stop(s, To(l))
      case Beqz(rj, l) => if s.Get(rj) == 0 then Stop(s, To(l)) else Exec(sym, code[1..], s)
      case Jr(rj) => Stop(s, At(s.Get(rj)))
      case ins => Exec(sym, code[1..], Effect(sym, ins, s))
  }

  lemma {:induction false} ExecConcat(sym: nat -> int, a: seq<Instr>, b: seq<Instr>, s: State)
    requires Exec(sym, a, s).next == Fall
    ensures Exec(sym, a + b, s) == Exec(sym, b, Exec(sym, a, s).s)
    decreases |a|
  {
    if |a| == 0 {
      assert a + b == b;
    } else {
      assert (a + b)[0] == a[0] && (a + b)[1..] == a[1..] + b;
      match a[0]
      case Beqz(_, _) => ExecConcat(sym, a[1..], b, s);
      case B(_) =>
      case Jr(_) =>
      case ins => ExecConcat(sym, a[1..], b, Effect(sym, ins, s));
    }
  }

  predicate Straight(ins: Instr) {
    !ins.B? && !ins.Beqz? && !ins.Jr?
  }

  lemma ExecOne(sym: nat -> int, ins: Instr, s: State)
    requires Straight(ins)
    ensures Exec(sym, [ins], s) == Stop(Effect(sym, ins, s), Fall)
  {
    assert [ins][1..] == [];
    assert Exec(sym, [], Effect(sym, ins, s)) == Stop(Effect(sym, ins, s), Fall);
  }

  /** An instruction in front of others. */
  lemma ExecFirst(sym: nat -> int, ins: Instr, rest: seq<Instr>, s: State)
    requires Straight(ins)
    ensures Exec(sym, [ins] + rest, s) == Exec(sym, rest, Effect(sym, ins, s))
  {
    assert ([ins] + rest)[1..] == rest;
  }

  lemma ExecTwo(sym: nat -> int, a: Instr, b: Instr, s: State)
    requires Straight(a) && Straight(b)
    ensures Exec(sym, [a, b], s) == Stop(Effect(sym, b, Effect(sym, a, s)), Fall)
  {
    assert [a, b] == [a] + [b];
    ExecFirst(sym, a, [b], s);
    ExecOne(sym, b, Effect(sym, a, s));
  }

  // ---------- immediates ----------

  function LoadLargeInt32(val: int, reg: Reg): seq<Instr> {
    [Lu12iW(reg, val / 0x1000), Ori(reg, reg, val % 0x1000)]
  }

  function LoadLargeInt64(val: int, reg: Reg): seq<Instr> {
    var low32 := Signed32(val);
    var high32 := val / TWO_32;
    LoadLargeInt32(low32, reg) + [Lu32iD(reg, Signed20(high32)), Lu52iD(reg, reg, high32 / 0x10_0000)]
  }

  /** Shifting an int left and then right again by 12 keeps its low 20 bits, signed. */
  function Signed20(x: int): int {
    Signed32(x * 0x1000) / 0x1000
  }

  lemma OrLow(h: int, u: int)
    requires IsInt32(h * 0x1000) && 0 <= u < 0x1000
    ensures OrBits(h * 0x1000, u, 64) == h * 0x1000 + u
  {
    Pow2At12();
    Pow2At32();
    Pow2Grows(32, 64);
    OrDisjoint(h, h * 0x1000, u, 12, 64);
  }

  /** Every 32-bit constant is loaded exactly, sign-extended. */
  lemma LoadLargeInt32Exact(sym: nat -> int, val: int, reg: Reg, s: State)
    requires IsInt32(val) && reg != ZERO
    ensures Exec(sym, LoadLargeInt32(val, reg), s) == Stop(s.Set(reg, val), Fall)
    ensures Encodable(LoadLargeInt32(val, reg))
  {
    hide OrBits, Exec;
    var a, b := Lu12iW(reg, val / 0x1000), Ori(reg, reg, val % 0x1000);
    ExecTwo(sym, a, b, s);
    OrLow(val / 0x1000, val % 0x1000);
  }

  lemma Signed32Is(y: int, q: int, r: int)
    requires y == q * TWO_32 + r && IsInt32(r)
    ensures Signed32(y) == r
  {
    ModUnique(y + TWO_31, TWO_32, q, r + TWO_31);
  }

  /** The low 20 bits of q times 2^20 plus h, signed. */
  lemma Signed20Is(q: int, h: int)
    requires 0 <= h < 0x10_0000
    ensures Signed20(q * 0x10_0000 + h) == if h < 0x8_0000 then h else h - 0x10_0000
  {
    hide Signed32;
    var y := (q * 0x10_0000 + h) * 0x1000;
    if h < 0x8_0000 {
      Signed32Is(y, q, h * 0x1000);
    } else {
      Signed32Is(y, q + 1, (h - 0x10_0000) * 0x1000);
    }
  }

  /** A number is put together again from its low 32 bits, the next 20 bits, signed,
      and the upper 12. */
  lemma Halves(val: int)
    requires IsInt64(val)
    ensures var low, high := Signed32(val), val / TWO_32;
      && low % TWO_32 == val % TWO_32
      && -0x8_0000 <= Signed20(high) < 0x8_0000 && -2048 <= high / 0x10_0000 <= 2047
      && (high / 0x10_0000) * TWO_52 + (Signed20(high) * TWO_32 + low % TWO_32) % TWO_52 == val
  {
    hide Signed20, Signed32;
    var low, high := Signed32(val), val / TWO_32;
    var q, h, l := high / 0x10_0000, high % 0x10_0000, val % TWO_32;
    assert low % TWO_32 == l by { SameLow(val, low); }
    Signed20Is(q, h);
    TopBits(val);
    Together(q, h, l);
  }

  lemma SameLow(x: int, y: int)
    requires (y - x) % TWO_32 == 0
    ensures y % TWO_32 == x % TWO_32
  {
    var d := (y - x) / TWO_32;
    ModUnique(y, TWO_32, x / TWO_32 + d, x % TWO_32);
  }

  lemma TopBits(val: int)
    requires IsInt64(val)
    ensures -2048 <= (val / TWO_32) / 0x10_0000 <= 2047
  {
  }

  /** The parts, with the middle one signed. */
  lemma Together(q: int, h: int, l: int)
    requires 0 <= h < 0x10_0000 && 0 <= l < TWO_32
    ensures var s20 := if h < 0x8_0000 then h else h - 0x10_0000;
      q * TWO_52 + (s20 * TWO_32 + l) % TWO_52 == (q * 0x10_0000 + h) * TWO_32 + l
  {
    var s20 := if h < 0x8_0000 then h else h - 0x10_0000;
    ModUnique(s20 * TWO_32 + l, TWO_52, if h < 0x8_0000 then 0 else -1, h * TWO_32 + l);
  }

  /** Every 64-bit constant is loaded exactly, whatever the register held. */
  lemma LoadLargeInt64Exact(sym: nat -> int, val: int, reg: Reg, s: State)
    requires IsInt64(val) && reg != ZERO
    ensures Exec(sym, LoadLargeInt64(val, reg), s) == Stop(s.Set(reg, val), Fall)
    ensures Encodable(LoadLargeInt64(val, reg))
  {
    hide OrBits, Exec, Signed20, LoadLargeInt32;
    var low, high := Signed32(val), val / TWO_32;
    var c, d := Lu32iD(reg, Signed20(high)), Lu52iD(reg, reg, high / 0x10_0000);
    LoadLargeInt32Exact(sym, low, reg, s);
    ExecConcat(sym, LoadLargeInt32(low, reg), [c, d], s);
    ExecTwo(sym, c, d, s.Set(reg, low));
    Halves(val);
  }
}
