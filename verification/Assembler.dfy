/** The two-pass assembler against the hardware's decoder: every field and immediate comes back, and
    labels are where branches land. */
module Assembler {
  import opened Words
  import opened Arithmetic
  import opened Datapath

  type RegNo = x: int | 0 <= x < 32
  type F3 = x: int | 0 <= x < 8
  type F7 = x: int | 0 <= x < 128

  /** A branch or jump operand: a label, or an offset written as a number. */
  datatype Target = To(name: string) | By(offset: int)

  /** An immediate operand: a number, or a label standing for its address. */
  datatype Value = Number(v: int) | Address(name: string)

  /** Instructions by encoding format, mnemonics and pseudo-instructions already looked up. */
  datatype Insn =
    | RType(f7: F7, rs2: RegNo, rs1: RegNo, f3: F3, rd: RegNo, op: F7)
    | IType(imm: Value, rs1: RegNo, f3: F3, rd: RegNo, op: F7)
    | SType(off: int, rs2: RegNo, rs1: RegNo, f3: F3, op: F7)
    | BType(target: Target, rs2: RegNo, rs1: RegNo, f3: F3, op: F7)
    | UType(imm: Value, rd: RegNo, op: F7)
    | JType(target: Target, rd: RegNo, op: F7)

  // ---- Encoders -----------------------------------------------------------------------------------------

  /** Fields side by side: bits 31-20, 19-15, 14-12, 11-7 and 6-0. */
  function Layout(top: nat, rs1: RegNo, f3: F3, low: RegNo, op: F7): Word
    requires top < 0x1000
  {
    top * 0x10_0000 + rs1 * 0x8000 + f3 * 0x1000 + low * 0x80 + op
  }

  /** Bits 31-12, 11-7 and 6-0. */
  function Layout20(top: nat, rd: RegNo, op: F7): Word
    requires top < 0x10_0000
  {
    top * 0x1000 + rd * 0x80 + op
  }

  function R(f7: F7, rs2: RegNo, rs1: RegNo, f3: F3, rd: RegNo, op: F7): Word { Layout(f7 * 32 + rs2, rs1, f3, rd, op) }
  function I(imm: int, rs1: RegNo, f3: F3, rd: RegNo, op: F7): Word { Layout(imm % 0x1000, rs1, f3, rd, op) }
  function S(imm: int, rs2: RegNo, rs1: RegNo, f3: F3, op: F7): Word {
    Layout(imm / 32 % 128 * 32 + rs2, rs1, f3, imm % 32, op)
  }
  function B(imm: int, rs2: RegNo, rs1: RegNo, f3: F3, op: F7): Word {
    var v := imm % 0x2000;
    Layout((v / 0x1000 * 64 + v / 32 % 64) * 32 + rs2, rs1, f3, v / 2 % 16 * 2 + v / 0x800 % 2, op)
  }
  function U(imm: int, rd: RegNo, op: F7): Word { Layout20(Wrap(imm) / 0x1000, rd, op) }
  function J(imm: int, rd: RegNo, op: F7): Word {
    var v := imm % 0x20_0000;
    Layout20(v / 0x10_0000 * 0x8_0000 + v / 2 % 1024 * 0x200 + v / 0x800 % 2 * 0x100 + v / 0x1000 % 256, rd, op)
  }

  // ---- What the decoder finds -----------------------------------------------------------------------------

  /** Every field boundary the decoder cuts at. */
  lemma LayoutCuts(top: nat, rs1: RegNo, f3: F3, low: RegNo, op: F7)
    requires top < 0x1000
    ensures
      var w := Layout(top, rs1, f3, low, op);
      && w % 0x80 == op && w / 0x80 == ((top * 32 + rs1) * 8 + f3) * 32 + low
      && w / 0x1000 == (top * 32 + rs1) * 8 + f3 && w / 0x8000 == top * 32 + rs1 && w / 0x10_0000 == top
  {
    var w := Layout(top, rs1, f3, low, op);
    var (a3, a2, a1) := (top * 32 + rs1, (top * 32 + rs1) * 8 + f3, ((top * 32 + rs1) * 8 + f3) * 32 + low);
    assert w == a1 * 0x80 + op;
    DivModOf(a1, op, 0x80);
    DivModOf(a2, low * 0x80 + op, 0x1000);
    DivModOf(a3, f3 * 0x1000 + low * 0x80 + op, 0x8000);
    DivModOf(top, rs1 * 0x8000 + f3 * 0x1000 + low * 0x80 + op, 0x10_0000);
  }

  lemma LayoutFields(top: nat, rs1: RegNo, f3: F3, low: RegNo, op: F7)
    requires top < 0x1000
    ensures
      var w := Layout(top, rs1, f3, low, op);
      && Opcode(w) == op && Rd(w) == low && Funct3(w) == f3 && Rs1(w) == rs1 && Imm12(w) == top && Rs2(w) == top % 32
  {
    hide Layout;
    LayoutCuts(top, rs1, f3, low, op);
    DivModOf((top * 32 + rs1) * 8 + f3, low, 32);
    DivModOf(top * 32 + rs1, f3, 8);
    DivModOf(top, rs1, 32);
  }

  lemma LayoutQuotients(top: nat, rs1: RegNo, f3: F3, low: RegNo, op: F7)
    requires top < 0x1000
    ensures
      var w := Layout(top, rs1, f3, low, op);
      && w / 0x8000_0000 == top / 0x800 && w / 0x4000_0000 == top / 0x400 && w / 0x200_0000 == top / 32
      && w / 0x10_0000 == top && w / 0x80 % 0x20 == low && w / 0x80 % 2 == low % 2 && w / 0x100 % 0x10 == low / 2
  {
    hide Layout;
    LayoutCuts(top, rs1, f3, low, op);
    var (w, x) := (Layout(top, rs1, f3, low, op), (top * 32 + rs1) * 8 + f3);
    DivDiv(w, 0x10_0000, 0x800);
    DivDiv(w, 0x10_0000, 0x400);
    DivDiv(w, 0x10_0000, 32);
    DivDiv(w, 0x80, 2);
    DivModOf(x, low, 32);
    assert (x * 32 + low) / 2 == x * 16 + low / 2;
    DivModOf(x, low / 2, 16);
  }

  lemma LayoutImms(top: nat, rs1: RegNo, f3: F3, low: RegNo, op: F7)
    requires top < 0x1000
    ensures
      var w := Layout(top, rs1, f3, low, op);
      var high := if top >= 0x800 then 0xFFFF_F000 else 0;
      && ImmGen(w, IMM_I) == high + top
      && ImmGen(w, IMM_S) == high + top / 32 * 32 + low
      && ImmGen(w, IMM_B) == high + low % 2 * 0x800 + top / 32 % 64 * 32 + low / 2 * 2
  {
    hide Layout;
    LayoutQuotients(top, rs1, f3, low, op);
    LayoutImmI(top, rs1, f3, low, op);
  }

  lemma LayoutImmI(top: nat, rs1: RegNo, f3: F3, low: RegNo, op: F7)
    requires top < 0x1000
    ensures ImmGen(Layout(top, rs1, f3, low, op), IMM_I) == top + if top >= 0x800 then 0xFFFF_F000 else 0
  {
    hide Layout;
    LayoutQuotients(top, rs1, f3, low, op);
  }

  lemma Layout20Fields(top: nat, rd: RegNo, op: F7)
    requires top < 0x10_0000
    ensures
      var w := Layout20(top, rd, op);
      && Opcode(w) == op && Rd(w) == rd && ImmGen(w, IMM_U) == top * 0x1000
      && w / 0x8000_0000 == top / 0x8_0000 && w / 0x1000 % 0x100 == top % 0x100
      && w / 0x10_0000 == top / 0x100 && w / 0x20_0000 == top / 0x200
  {
    var w := Layout20(top, rd, op);
    assert w / 0x80 == top * 0x20 + rd;
    assert w / 0x1000 == top;
  }

  // ---- Round trips of the immediates -------------------------------------------------------------------------

  /** The low bits of `x` as a signed number in [-m, m), where `m` is the weight of the sign bit. */
  function SignedLow(x: int, m: int): int
    requires m > 0
  {
    (x + m) % (2 * m) - m
  }

  lemma SignedLowIs(x: int, m: int)
    requires m > 0
    ensures -m <= SignedLow(x, m) < m
    ensures SignedLow(x, m) == x <==> -m <= x < m
  {
    if -m <= x < m { SmallMod(x + m, 2 * m); }
  }

  /** Sign extension looks at the low bits only. */
  lemma SignedLowOf(x: int, m: nat)
    requires m > 0
    ensures var v := x % (2 * m); SignedLow(x, m) == if v >= m then v - 2 * m else v
    ensures x % (2 * m) % 2 == x % 2
  {
    var d := 2 * m;
    var (q, v) := (x / d, x % d);
    assert x == q * d + v && 0 <= v < d;
    if v < m {
      ModOf(q, v + m, d);
    } else {
      assert x + m == (q + 1) * d + (v - m);
      ModOf(q + 1, v - m, d);
    }
    LowBit(q, m, v);
  }

  lemma LowBit(q: int, m: int, v: int)
    ensures (q * (2 * m) + v) % 2 == v % 2
  {
    assert q * (2 * m) == 2 * (q * m);
  }

  /** The immediates as words: 12 bits, and 13 and 21 bits with bit 0 dropped. */
  lemma Signed12(imm: int)
    ensures var v := imm % 0x1000; Wrap(SignedLow(imm, 0x800)) == v + if v >= 0x800 then 0xFFFF_F000 else 0
  {
    SignedLowOf(imm, 0x800);
    hide SignedLow;
  }

  lemma Signed13(imm: int)
    ensures
      var v := imm % 0x2000;
      Wrap(SignedLow(imm, 0x1000) - imm % 2) == v - v % 2 + if v >= 0x1000 then 0xFFFF_E000 else 0
  {
    SignedLowOf(imm, 0x1000);
    hide SignedLow;
  }

  lemma Signed21(imm: int)
    ensures
      var v := imm % 0x20_0000;
      Wrap(SignedLow(imm, 0x10_0000) - imm % 2) == v - v % 2 + if v >= 0x10_0000 then 0xFFE0_0000 else 0
  {
    SignedLowOf(imm, 0x10_0000);
    hide SignedLow;
  }

  lemma Parts12(imm: int)
    ensures imm % 0x1000 == imm / 32 % 128 * 32 + imm % 32
  {
    var (q, v) := (imm / 0x1000, imm % 0x1000);
    assert imm / 32 == q * 128 + v / 32;
  }

  lemma Parts13(v: nat)
    requires v < 0x2000
    ensures v == v / 0x1000 * 0x1000 + v / 0x800 % 2 * 0x800 + v / 32 % 64 * 32 + v / 2 % 16 * 2 + v % 2
    ensures v / 0x1000 < 2 && (v >= 0x1000 <==> v / 0x1000 == 1)
  {
    var (w, x) := (v / 2, v / 32);
    assert w == x * 16 + w % 16;
    assert v / 0x800 == x / 64;
  }

  /** I-type: fields and immediate come back; the immediate is exact just when it fits in 12 bits. */
  lemma IRoundTrip(imm: int, rs1: RegNo, f3: F3, rd: RegNo, op: F7)
    ensures
      var w := I(imm, rs1, f3, rd, op);
      && Opcode(w) == op && Rd(w) == rd && Funct3(w) == f3 && Rs1(w) == rs1 && Imm12(w) == imm % 0x1000
      && ImmGen(w, IMM_I) == Wrap(SignedLow(imm, 0x800))
  {
    hide Layout, ImmGen;
    LayoutFields(imm % 0x1000, rs1, f3, rd, op);
    LayoutImms(imm % 0x1000, rs1, f3, rd, op);
    hide Opcode, Rd, Funct3, Rs1, Imm12;
  }

  lemma SRoundTrip(imm: int, rs2: RegNo, rs1: RegNo, f3: F3, op: F7)
    ensures
      var w := S(imm, rs2, rs1, f3, op);
      && Opcode(w) == op && Funct3(w) == f3 && Rs1(w) == rs1 && Rs2(w) == rs2
      && ImmGen(w, IMM_S) == Wrap(SignedLow(imm, 0x800))
  {
    hide Layout, ImmGen, SignedLow, Wrap;
    var (hi, lo) := (imm / 32 % 128, imm % 32);
    LayoutFields(hi * 32 + rs2, rs1, f3, lo, op);
    LayoutImms(hi * 32 + rs2, rs1, f3, lo, op);
    hide Opcode, Rd, Funct3, Rs1, Imm12;
    Parts12(imm);
    Signed12(imm);
  }

  lemma BRoundTrip(imm: int, rs2: RegNo, rs1: RegNo, f3: F3, op: F7)
    ensures
      var w := B(imm, rs2, rs1, f3, op);
      && Opcode(w) == op && Funct3(w) == f3 && Rs1(w) == rs1 && Rs2(w) == rs2
      && ImmGen(w, IMM_B) == Wrap(SignedLow(imm, 0x1000) - imm % 2)
  {
    hide Layout, ImmGen, SignedLow, Wrap;
    var v := imm % 0x2000;
    Parts13(v);
    Signed13(imm);
    BFields(v / 0x1000, v / 32 % 64, v / 2 % 16, v / 0x800 % 2, rs2, rs1, f3, op);
    hide Opcode, Rd, Funct3, Rs1, Rs2, Imm12;
  }

  lemma BFields(b12: nat, b10: nat, b4: nat, b11: nat, rs2: RegNo, rs1: RegNo, f3: F3, op: F7)
    requires b12 < 2 && b10 < 64 && b4 < 16 && b11 < 2
    ensures
      var w := Layout((b12 * 64 + b10) * 32 + rs2, rs1, f3, b4 * 2 + b11, op);
      && Opcode(w) == op && Funct3(w) == f3 && Rs1(w) == rs1 && Rs2(w) == rs2
      && ImmGen(w, IMM_B) == (if b12 == 1 then 0xFFFF_F000 else 0) + b11 * 0x800 + b10 * 32 + b4 * 2
  {
    hide Layout, ImmGen;
    var (top, low) := ((b12 * 64 + b10) * 32 + rs2, b4 * 2 + b11);
    LayoutFields(top, rs1, f3, low, op);
    LayoutImms(top, rs1, f3, low, op);
    hide Opcode, Rd, Funct3, Rs1, Rs2, Imm12;
    assert top / 32 == b12 * 64 + b10 && top % 32 == rs2 && low / 2 == b4 && low % 2 == b11;
    assert (b12 * 64 + b10) % 64 == b10;
  }

  lemma Parts21(v: nat)
    requires v < 0x20_0000
    ensures v == v / 0x10_0000 * 0x10_0000 + v / 0x1000 % 256 * 0x1000 +
                 v / 0x800 % 2 * 0x800 + v / 2 % 1024 * 2 + v % 2
    ensures v / 0x10_0000 < 2 && (v >= 0x10_0000 <==> v / 0x10_0000 == 1)
  {
    var (w, x) := (v / 2, v / 0x800);
    assert w == x * 1024 + w % 1024;
    assert v / 0x1000 == x / 2 && v / 0x10_0000 == x / 2 / 256;
  }

  lemma JFields(b20: nat, b19: nat, b11: nat, b10: nat, rd: RegNo, op: F7)
    requires b20 < 2 && b19 < 256 && b11 < 2 && b10 < 1024
    ensures
      var w := Layout20(b20 * 0x8_0000 + b10 * 0x200 + b11 * 0x100 + b19, rd, op);
      && Opcode(w) == op && Rd(w) == rd
      && ImmGen(w, IMM_J) == (if b20 == 1 then 0xFFF0_0000 else 0) + b19 * 0x1000 + b11 * 0x800 + b10 * 2
  {
    hide Layout20;
    var top := b20 * 0x8_0000 + b10 * 0x200 + b11 * 0x100 + b19;
    Layout20Fields(top, rd, op);
    hide Opcode, Rd;
    assert top / 0x8_0000 == b20 && top / 0x200 == b20 * 1024 + b10 && top / 0x100 == (b20 * 1024 + b10) * 2 + b11;
    assert top % 0x100 == b19 && (b20 * 1024 + b10) % 0x400 == b10 && ((b20 * 1024 + b10) * 2 + b11) % 2 == b11;
    hide Bit;
    assert Bit(Layout20(top, rd, op), 0x8000_0000) <==> b20 == 1 by { TopBit(Layout20(top, rd, op), b20); }
  }

  lemma TopBit(w: Word, b: nat)
    requires w / 0x8000_0000 == b < 2
    ensures Bit(w, 0x8000_0000) <==> b == 1
  {
  }

  lemma JRoundTrip(imm: int, rd: RegNo, op: F7)
    ensures
      var w := J(imm, rd, op);
      && Opcode(w) == op && Rd(w) == rd
      && ImmGen(w, IMM_J) == Wrap(SignedLow(imm, 0x10_0000) - imm % 2)
  {
    hide Layout20, ImmGen, SignedLow, Wrap;
    var v := imm % 0x20_0000;
    Parts21(v);
    Signed21(imm);
    JFields(v / 0x10_0000, v / 0x1000 % 256, v / 0x800 % 2, v / 2 % 1024, rd, op);
    hide Opcode, Rd;
  }

  lemma URoundTrip(imm: int, rd: RegNo, op: F7)
    ensures
      var w := U(imm, rd, op);
      && Opcode(w) == op && Rd(w) == rd && ImmGen(w, IMM_U) == Wrap(imm) - Wrap(imm) % 0x1000
  {
    hide Layout20, ImmGen, Wrap;
    Layout20Fields(Wrap(imm) / 0x1000, rd, op);
  }

  lemma RRoundTrip(f7: F7, rs2: RegNo, rs1: RegNo, f3: F3, rd: RegNo, op: F7)
    ensures
      var w := R(f7, rs2, rs1, f3, rd, op);
      && Opcode(w) == op && Rd(w) == rd && Funct3(w) == f3 && Rs1(w) == rs1 && Rs2(w) == rs2
      && (Bit(w, 0x4000_0000) <==> f7 / 32 % 2 == 1)
  {
    hide Layout;
    var top := f7 * 32 + rs2;
    LayoutFields(top, rs1, f3, rd, op);
    LayoutQuotients(top, rs1, f3, rd, op);
    hide Opcode, Rd, Funct3, Rs1, Rs2, Imm12;
  }

  // ---- The two passes ----------------------------------------------------------------------------------------

  /** A source line: a label, or an instruction. */
  datatype Item = Label(name: string) | Code(insn: Insn)

  type Symbols = map<string, int>

  /** The number of instructions. */
  function Size(items: seq<Item>): nat {
    if items == [] then 0 else Size(items[..|items| - 1]) + if items[|items| - 1].Code? then 1 else 0
  }

  /** Each label's address: that of the next instruction. The last definition of a name wins. */
  function SymbolsOf(items: seq<Item>, base: nat): Symbols {
    if items == [] then map[]
    else
      var (rest, last) := (items[..|items| - 1], items[|items| - 1]);
      if last.Label? then SymbolsOf(rest, base)[last.name := base + 4 * Size(rest)] else SymbolsOf(rest, base)
  }

  function CodeOf(items: seq<Item>): (c: seq<Insn>)
    ensures |c| == Size(items)
  {
    if items == [] then []
    else
      CodeOf(items[..|items| - 1]) + if items[|items| - 1].Code? then [items[|items| - 1].insn] else []
  }

  predicate Defined(t: Target, labels: Symbols) { t.To? ==> t.name in labels }

  predicate Known(v: Value, labels: Symbols) { v.Address? ==> v.name in labels }

  predicate Encodable(i: Insn, labels: Symbols) {
    && (i.BType? || i.JType? ==> Defined(i.target, labels))
    && (i.IType? || i.UType? ==> Known(i.imm, labels))
  }

  function Amount(v: Value, labels: Symbols): int
    requires Known(v, labels)
  {
    match v
    case Number(n) => n
    case Address(name) => labels[name]
  }

  /** `lui` and `auipc` take an operand below 0x1000 as the upper bits, and any other as the whole word. */
  function Upper(v: int): int { if v < 0x1000 then v * 0x1000 else v }

  /** A label operand is the distance to the label; a number is itself. */
  function Offset(t: Target, labels: Symbols, pc: int): int
    requires Defined(t, labels)
  {
    match t
    case To(name) => labels[name] - pc
    case By(offset) => offset
  }

  function Encode(i: Insn, labels: Symbols, pc: int): Word
    requires Encodable(i, labels)
  {
    match i
    case RType(f7, rs2, rs1, f3, rd, op) => R(f7, rs2, rs1, f3, rd, op)
    case IType(v, rs1, f3, rd, op) => I(Amount(v, labels), rs1, f3, rd, op)
    case SType(off, rs2, rs1, f3, op) => S(off, rs2, rs1, f3, op)
    case BType(t, rs2, rs1, f3, op) => B(Offset(t, labels, pc), rs2, rs1, f3, op)
    case UType(v, rd, op) => U(Upper(Amount(v, labels)), rd, op)
    case JType(t, rd, op) => J(Offset(t, labels, pc), rd, op)
  }

  /** The words of a program whose labels are all defined. */
  ghost predicate AssembledTo(items: seq<Item>, base: nat, words: seq<Word>) {
    && |words| == Size(items)
    && forall k | 0 <= k < Size(items) ::
         Encodable(CodeOf(items)[k], SymbolsOf(items, base)) &&
         words[k] == Encode(CodeOf(items)[k], SymbolsOf(items, base), base + 4 * k)
  }

  /** `assemble`: the first pass collects labels and instructions, the second encodes; a label that is
      nowhere defined makes it fail. */
  method Assemble(items: seq<Item>, base: nat) returns (words: Option<seq<Word>>, labels: Symbols)
    ensures labels == SymbolsOf(items, base)
    ensures words.Some? <==> forall i | i in CodeOf(items) :: Encodable(i, labels)
    ensures words.Some? ==> AssembledTo(items, base, words.value)
  {
    hide R, I, S, B, U, J;
    var insns: seq<Insn> := [];
    var pc := base;
    labels := map[];
    for n := 0 to |items|
      invariant labels == SymbolsOf(items[..n], base) && insns == CodeOf(items[..n]) && pc == base + 4 * |insns|
    {
      assert items[..n + 1][..n] == items[..n];
      match items[n] {
        case Label(name) => labels := labels[name := pc];
        case Code(insn) =>
          insns := insns + [insn];
          pc := pc + 4;
      }
    }
    assert items[..|items|] == items;
    var out: seq<Word> := [];
    for k := 0 to |insns|
      invariant |out| == k && forall i | 0 <= i < k :: Encodable(insns[i], labels)
      invariant forall i | 0 <= i < k :: out[i] == Encode(insns[i], labels, base + 4 * i)
    {
      if !Encodable(insns[k], labels) {
        assert insns[k] in CodeOf(items);
        return None, labels;
      }
      out := out + [Encode(insns[k], labels, base + 4 * k)];
    }
    words := Some(out);
  }

  // ---- Branches land on labels -----------------------------------------------------------------------------------

  /** The last place a label is defined fixes its value: the address of the instruction that follows. */
  lemma {:induction false} LabelAddress(items: seq<Item>, base: nat, i: nat)
    requires i < |items| && items[i].Label?
    requires forall k | i < k < |items| :: items[k] != items[i]
    ensures items[i].name in SymbolsOf(items, base)
    ensures SymbolsOf(items, base)[items[i].name] == base + 4 * Size(items[..i])
    decreases |items|
  {
    var n := |items| - 1;
    if i < n {
      LabelAddress(items[..n], base, i);
      assert items[..n][..i] == items[..i] && items[n] != items[i];
    } else {
      assert items[..n] == items[..i];
    }
  }

  /** Two numbers in the signed range that agree modulo 2^32 are equal. */
  lemma SignedRange(s: int, t: int)
    requires -W32 / 2 <= s < W32 / 2 && -W32 / 2 <= t < W32 / 2
    ensures Wrap(s) == Wrap(t) <==> s == t
  {
  }

  lemma WrapShift(pc: int, s: int, t: int)
    ensures Add(Wrap(pc), Wrap(s)) == Wrap(pc + s)
    ensures Wrap(pc + s) == Wrap(pc + t) <==> Wrap(s) == Wrap(t)
  {
  }

  /** A distance as the hardware sees it: modulo 2^32, signed. */
  function Distance(off: int): (d: int)
    ensures -W32 / 2 <= d < W32 / 2 && Wrap(d) == Wrap(off) && d % 2 == off % 2
    ensures -W32 / 2 <= off < W32 / 2 ==> d == off
  {
    Signed(Wrap(off))
  }

  /** The low bits of a number are those of its 32-bit distance. */
  lemma SignedLowOfDistance(off: int, m: nat, n: nat)
    requires m > 0 && n > 0 && n * (2 * m) == W32
    ensures SignedLow(off, m) == SignedLow(Distance(off), m)
  {
    var (d, q, v) := (Distance(off), (off - Distance(off)) / W32, (Distance(off) + m) % (2 * m));
    var r := (d + m) / (2 * m);
    assert off == d + q * W32;
    assert q * W32 == q * n * (2 * m);
    assert off + m == (q * n + r) * (2 * m) + v;
    ModOf(q * n + r, v, 2 * m);
  }

  lemma SignedLowParity(x: int, m: nat)
    requires m > 0
    ensures SignedLow(x, m) % 2 == x % 2
  {
    var q := (x + m) / (2 * m);
    assert x == q * (2 * m) + SignedLow(x, m);
    LowBit(q, m, SignedLow(x, m));
  }

  /** Dropping bit 0 of the low bits gives the number back exactly when it is even and fits. */
  lemma EvenAndFits(x: int, m: int)
    requires m > 0
    ensures SignedLow(x, m) - x % 2 == x <==> (x % 2 == 0 && -m <= x < m)
  {
    SignedLowIs(x, m);
    SignedLowParity(x, m);
    hide SignedLow;
  }

  /** Adding the decoded distance reaches the target exactly when it is even and fits. */
  lemma LandsWhenItFits(pc: int, off: int, m: int, n: nat)
    requires 0 < m <= 0x10_0000 && n > 0 && n * (2 * m) == W32
    ensures
      var d := Distance(off);
      Add(Wrap(pc), Wrap(SignedLow(off, m) - off % 2)) == Wrap(pc + off) <==> (d % 2 == 0 && -m <= d < m)
  {
    var (d, s) := (Distance(off), SignedLow(off, m) - off % 2);
    SignedLowOfDistance(off, m, n);
    SignedLowIs(off, m);
    EvenAndFits(d, m);
    hide SignedLow, Distance, Wrap, Add;
    WrapShift(pc, s, off);
    SignedRange(s, d);
  }

  /** Where the hardware takes a branch emitted for a label: to the label exactly when the distance is even
      and fits in 13 bits. Distances outside are cut down silently and the branch goes elsewhere. */
  lemma BranchLands(i: Insn, labels: Symbols, pc: int)
    requires i.BType? && i.target.To? && Encodable(i, labels)
    ensures
      var (w, d) := (Encode(i, labels, pc), Distance(labels[i.target.name] - pc));
      Add(Wrap(pc), ImmGen(w, IMM_B)) == Wrap(labels[i.target.name]) <==> (d % 2 == 0 && -0x1000 <= d < 0x1000)
  {
    hide B, ImmGen, SignedLow, Add, Wrap, Distance;
    var off := labels[i.target.name] - pc;
    assert Encode(i, labels, pc) == B(off, i.rs2, i.rs1, i.f3, i.op);
    BRoundTrip(off, i.rs2, i.rs1, i.f3, i.op);
    hide Encode;
    LandsWhenItFits(pc, off, 0x1000, 0x8_0000);
  }

  lemma JumpLands(i: Insn, labels: Symbols, pc: int)
    requires i.JType? && i.target.To? && Encodable(i, labels)
    ensures
      var (w, d) := (Encode(i, labels, pc), Distance(labels[i.target.name] - pc));
      Add(Wrap(pc), ImmGen(w, IMM_J)) == Wrap(labels[i.target.name]) <==> (d % 2 == 0 && -0x10_0000 <= d < 0x10_0000)
  {
    hide J, ImmGen, SignedLow, Add, Wrap, Distance;
    var off := labels[i.target.name] - pc;
    assert Encode(i, labels, pc) == J(off, i.rd, i.op);
    JRoundTrip(off, i.rd, i.op);
    hide Encode;
    LandsWhenItFits(pc, off, 0x10_0000, 0x800);
  }

  // ---- Whole programs ---------------------------------------------------------------------------

  /** Item `i` is the last definition of its label. */
  predicate LastDefined(items: seq<Item>, i: nat) {
    i < |items| && items[i].Label? && forall k | i < k < |items| :: items[k] != items[i]
  }

  /** Bytes from instruction `k` to the instruction after item `i`. */
  function Span(items: seq<Item>, k: nat, i: nat): int
    requires i <= |items|
  {
    4 * (Size(items[..i]) - k)
  }

  lemma {:induction false} SizeOfPrefix(items: seq<Item>, i: nat)
    requires i <= |items|
    ensures Size(items[..i]) <= Size(items)
    decreases |items|
  {
    if i < |items| {
      SizeOfPrefix(items[..|items| - 1], i);
      assert items[..|items| - 1][..i] == items[..i];
    } else {
      assert items[..i] == items;
    }
  }

  lemma EvenSpan(n: int)
    ensures 4 * n % 2 == 0
  {
  }

  /** The distance a label's user is given is the span, modulo 2^32; the span itself below 2 GB. */
  lemma SpanIsDistance(items: seq<Item>, base: nat, k: nat, i: nat)
    requires LastDefined(items, i) && k < Size(items)
    ensures
      var labels := SymbolsOf(items, base);
      && items[i].name in labels && labels[items[i].name] == base + 4 * Size(items[..i])
      && labels[items[i].name] - (base + 4 * k) == Span(items, k, i)
    ensures Distance(Span(items, k, i)) % 2 == 0
    ensures Size(items) < 0x2000_0000 ==> Distance(Span(items, k, i)) == Span(items, k, i)
  {
    hide SymbolsOf, Size, Wrap, Signed;
    LabelAddress(items, base, i);
    SizeOfPrefix(items, i);
    EvenSpan(Size(items[..i]) - k);
    hide Distance;
  }

  /** In an assembled program a branch to a label takes the hardware to the instruction after the label's
      last definition if and only if that is from 1024 instructions back to 1023 ahead. */
  lemma ProgramBranchLands(items: seq<Item>, base: nat, words: seq<Word>, k: nat, i: nat)
    requires AssembledTo(items, base, words) && LastDefined(items, i) && k < Size(items)
    requires CodeOf(items)[k].BType? && CodeOf(items)[k].target == To(items[i].name)
    ensures
      var lands := Add(Wrap(base + 4 * k), ImmGen(words[k], IMM_B)) == Wrap(base + 4 * Size(items[..i]));
      && (lands <==> -0x1000 <= Distance(Span(items, k, i)) < 0x1000)
      && (Size(items) < 0x2000_0000 ==> (lands <==> -1024 <= Size(items[..i]) - k < 1024))
  {
    hide ImmGen, Add, Wrap, Distance, Encode, SymbolsOf, Size, CodeOf;
    SpanIsDistance(items, base, k, i);
    BranchLands(CodeOf(items)[k], SymbolsOf(items, base), base + 4 * k);
  }

  /** The same for jumps, 2^18 instructions either way. */
  lemma ProgramJumpLands(items: seq<Item>, base: nat, words: seq<Word>, k: nat, i: nat)
    requires AssembledTo(items, base, words) && LastDefined(items, i) && k < Size(items)
    requires CodeOf(items)[k].JType? && CodeOf(items)[k].target == To(items[i].name)
    ensures
      var lands := Add(Wrap(base + 4 * k), ImmGen(words[k], IMM_J)) == Wrap(base + 4 * Size(items[..i]));
      && (lands <==> -0x10_0000 <= Distance(Span(items, k, i)) < 0x10_0000)
      && (Size(items) < 0x2000_0000 ==> (lands <==> -0x4_0000 <= Size(items[..i]) - k < 0x4_0000))
  {
    hide ImmGen, Add, Wrap, Distance, Encode, SymbolsOf, Size, CodeOf;
    SpanIsDistance(items, base, k, i);
    JumpLands(CodeOf(items)[k], SymbolsOf(items, base), base + 4 * k);
  }

  // ---- A branch that does not land --------------------------------------------------------------

  const SKIP: Insn := BType(To("end"), 0, 0, 0, 0x63)
  const NOP: Insn := IType(Number(0), 0, 0, 0, 0x13)

  /** `beq x0, x0, end`, then `n` NOPs. */
  function SkipBody(n: nat): seq<Item> { [Code(SKIP)] + seq(n, _ => Code(NOP)) }

  /** The same, then the label. */
  function SkipProgram(n: nat): seq<Item> { SkipBody(n) + [Label("end")] }

  lemma {:induction false} SkipCode(n: nat)
    ensures Size(SkipBody(n)) == n + 1 && CodeOf(SkipBody(n)) == [SKIP] + seq(n, _ => NOP)
  {
    var body := SkipBody(n);
    if n == 0 {
      assert body == [Code(SKIP)] && body[..0] == [];
    } else {
      SkipCode(n - 1);
      assert body[..n] == SkipBody(n - 1) && body[n] == Code(NOP);
    }
  }

  /** Whatever the length, the program assembles. */
  lemma SkipEncodable(n: nat)
    ensures
      var items := SkipProgram(n);
      && Size(items) == n + 1 && CodeOf(items) == [SKIP] + seq(n, _ => NOP)
      && "end" in SymbolsOf(items, 0) && SymbolsOf(items, 0)["end"] == 4 * (n + 1)
      && forall i | i in CodeOf(items) :: Encodable(i, SymbolsOf(items, 0))
  {
    var items := SkipProgram(n);
    SkipCode(n);
    assert items[..n + 1] == SkipBody(n) && items[n + 1] == Label("end");
    LabelAddress(items, 0, n + 1);
  }

  /** The words in between are the canonical NOP. */
  lemma NopWords(n: nat, words: seq<Word>, k: nat)
    requires AssembledTo(SkipProgram(n), 0, words) && 1 <= k <= n < |words|
    ensures words[k] == 0x13
  {
    SkipEncodable(n);
    hide ImmGen, SymbolsOf, Size, CodeOf, SkipProgram;
    assert CodeOf(SkipProgram(n))[k] == NOP;
  }

  /** Over 1023 NOPs the branch goes 4096 bytes back instead of ahead; over fewer it reaches the label. */
  lemma LongBranchMisses(n: nat, words: seq<Word>)
    requires AssembledTo(SkipProgram(n), 0, words) && n < 0x1000_0000
    ensures |words| == n + 1 && (ImmGen(words[0], IMM_B) == 4 * (n + 1) <==> n < 1023)
    ensures n == 1023 ==> ImmGen(words[0], IMM_B) == 0xFFFF_F000
  {
    hide B, ImmGen, SymbolsOf, Size, CodeOf, SkipProgram;
    SkipEncodable(n);
    var off := 4 * (n + 1);
    assert words[0] == B(off, 0, 0, 0, 0x63);
    BRoundTrip(off, 0, 0, 0, 0x63);
    SignedLowIs(off, 0x1000);
  }

  // ---- Operands that are cut down ---------------------------------------------------------------

  /** A label as an immediate gives the label's address exactly when it lies in the lowest or the highest
      2048 bytes. */
  lemma AddressFits(i: Insn, labels: Symbols, pc: int)
    requires i.IType? && i.imm.Address? && Encodable(i, labels) && 0 <= labels[i.imm.name] < W32
    ensures
      var v := labels[i.imm.name];
      ImmGen(Encode(i, labels, pc), IMM_I) == v <==> (v < 0x800 || v >= 0xFFFF_F800)
  {
    hide I, ImmGen, SignedLow;
    var v := labels[i.imm.name];
    IRoundTrip(v, i.rs1, i.f3, i.rd, i.op);
    SignedLowOfDistance(v, 0x800, 0x10_0000);
    SignedLowIs(v, 0x800);
    SignedLowIs(Distance(v), 0x800);
    SmallMod(v, W32);
    SignedRange(SignedLow(v, 0x800), Distance(v));
  }

  /** `lui` and `auipc` with a 20-bit operand put it into the upper bits exactly when it is below 0x1000;
      from there on they take the operand for the whole word and drop its low 12 bits. */
  lemma UpperFits(v: int, rd: RegNo, op: F7, labels: Symbols, pc: int)
    requires 0 <= v < 0x10_0000
    ensures
      var w := Encode(UType(Number(v), rd, op), labels, pc);
      && (ImmGen(w, IMM_U) == v * 0x1000 <==> v < 0x1000)
      && (v >= 0x1000 ==> ImmGen(w, IMM_U) == v - v % 0x1000)
  {
    hide U, ImmGen;
    URoundTrip(Upper(v), rd, op);
    SmallMod(Upper(v), W32);
    if v < 0x1000 {
      assert v * 0x1000 % 0x1000 == 0;
    } else {
      assert v - v % 0x1000 <= v < v * 0x1000;
    }
  }

  // ---- Every assembled word ------------------------------------------------------------------------------------

  /** An immediate of `m` as the sign bit's weight arrives exactly when it fits. */
  lemma FitsExactly(v: int, m: int, n: nat)
    requires 0 < m <= 0x10_0000 && n > 0 && n * (2 * m) == W32
    ensures Wrap(SignedLow(v, m)) == Wrap(v) <==> -m <= Distance(v) < m
    ensures Wrap(SignedLow(v, m) - v % 2) == Wrap(v) <==> Distance(v) % 2 == 0 && -m <= Distance(v) < m
  {
    SignedLowOfDistance(v, m, n);
    SignedLowIs(v, m);
    SignedLowIs(Distance(v), m);
    EvenAndFits(Distance(v), m);
    hide SignedLow, Distance, Wrap;
    SignedRange(SignedLow(v, m), Distance(v));
    SignedRange(SignedLow(v, m) - v % 2, Distance(v));
  }

  /** What the hardware's decoder finds in the word of an instruction: its fields; its immediate exactly when it
      fits, and always the immediate's low bits sign-extended. */
  ghost predicate Decodes(i: Insn, labels: Symbols, pc: int, w: Word)
    requires Encodable(i, labels)
  {
    match i
    case RType(f7, rs2, rs1, f3, rd, op) =>
      && Opcode(w) == op && Rd(w) == rd && Funct3(w) == f3 && Rs1(w) == rs1 && Rs2(w) == rs2 && w / 0x200_0000 == f7
    case IType(imm, rs1, f3, rd, op) =>
      var v := Amount(imm, labels);
      && Opcode(w) == op && Rd(w) == rd && Funct3(w) == f3 && Rs1(w) == rs1 && Imm12(w) == v % 0x1000
      && ImmGen(w, IMM_I) == Wrap(SignedLow(v, 0x800))
      && (ImmGen(w, IMM_I) == Wrap(v) <==> -0x800 <= Distance(v) < 0x800)
    case SType(v, rs2, rs1, f3, op) =>
      && Opcode(w) == op && Funct3(w) == f3 && Rs1(w) == rs1 && Rs2(w) == rs2
      && ImmGen(w, IMM_S) == Wrap(SignedLow(v, 0x800))
      && (ImmGen(w, IMM_S) == Wrap(v) <==> -0x800 <= Distance(v) < 0x800)
    case BType(t, rs2, rs1, f3, op) =>
      var v := Offset(t, labels, pc);
      && Opcode(w) == op && Funct3(w) == f3 && Rs1(w) == rs1 && Rs2(w) == rs2
      && ImmGen(w, IMM_B) == Wrap(SignedLow(v, 0x1000) - v % 2)
      && (ImmGen(w, IMM_B) == Wrap(v) <==> Distance(v) % 2 == 0 && -0x1000 <= Distance(v) < 0x1000)
    case UType(imm, rd, op) =>
      var v := Upper(Amount(imm, labels));
      && Opcode(w) == op && Rd(w) == rd && ImmGen(w, IMM_U) == Wrap(v) - Wrap(v) % 0x1000
    case JType(t, rd, op) =>
      var v := Offset(t, labels, pc);
      && Opcode(w) == op && Rd(w) == rd && ImmGen(w, IMM_J) == Wrap(SignedLow(v, 0x10_0000) - v % 2)
      && (ImmGen(w, IMM_J) == Wrap(v) <==> Distance(v) % 2 == 0 && -0x10_0000 <= Distance(v) < 0x10_0000)
  }

  lemma Funct7(f7: F7, rs2: RegNo, rs1: RegNo, f3: F3, rd: RegNo, op: F7)
    ensures R(f7, rs2, rs1, f3, rd, op) / 0x200_0000 == f7
  {
    hide Layout;
    LayoutQuotients(f7 * 32 + rs2, rs1, f3, rd, op);
  }

  lemma EncodeDecodes(i: Insn, labels: Symbols, pc: int)
    requires Encodable(i, labels)
    ensures Decodes(i, labels, pc, Encode(i, labels, pc))
  {
    hide R, I, S, B, U, J, ImmGen, SignedLow, Distance, Opcode, Rd, Funct3, Rs1, Rs2, Imm12, Wrap;
    match i {
      case RType(f7, rs2, rs1, f3, rd, op) =>
        RRoundTrip(f7, rs2, rs1, f3, rd, op);
        Funct7(f7, rs2, rs1, f3, rd, op);
      case IType(imm, rs1, f3, rd, op) =>
        IRoundTrip(Amount(imm, labels), rs1, f3, rd, op);
        FitsExactly(Amount(imm, labels), 0x800, 0x10_0000);
      case SType(v, rs2, rs1, f3, op) =>
        SRoundTrip(v, rs2, rs1, f3, op);
        FitsExactly(v, 0x800, 0x10_0000);
      case BType(t, rs2, rs1, f3, op) =>
        BRoundTrip(Offset(t, labels, pc), rs2, rs1, f3, op);
        FitsExactly(Offset(t, labels, pc), 0x1000, 0x8_0000);
      case UType(imm, rd, op) =>
        URoundTrip(Upper(Amount(imm, labels)), rd, op);
      case JType(t, rd, op) =>
        JRoundTrip(Offset(t, labels, pc), rd, op);
        FitsExactly(Offset(t, labels, pc), 0x10_0000, 0x800);
    }
  }

  /** Decoding any word of an assembled program gives back its instruction: labels as distances or addresses,
      numbers as they are, negative ones included. */
  lemma ProgramDecodes(items: seq<Item>, base: nat, words: seq<Word>, k: nat)
    requires AssembledTo(items, base, words) && k < Size(items)
    ensures Encodable(CodeOf(items)[k], SymbolsOf(items, base))
    ensures Decodes(CodeOf(items)[k], SymbolsOf(items, base), base + 4 * k, words[k])
  {
    hide Encode, Decodes, SymbolsOf, CodeOf, Size;
    EncodeDecodes(CodeOf(items)[k], SymbolsOf(items, base), base + 4 * k);
  }
}
