/** Byte-enabled word memory behind the load/store unit is a flat little-endian byte array. */
module Lanes {
  import opened Words
  import opened Arithmetic
  import opened Datapath

  /** One access with the encodings of mem_size: 0 byte, 1 halfword, 2 word. */
  datatype Access = Load(addr: Word, size: Word, unsigned: bool) | Store(addr: Word, size: Word, data: Word)

  function Width(size: Word): nat { if size == 0 then 1 else if size == 1 then 2 else 4 }

  predicate InRange(a: Access, words: nat) { AlignOk(a.addr, a.size) && a.addr / 4 < words }

  // ---- Two memories ---------------------------------------------------------------------------------

  /** The word RAM with byte enables. */
  function WordAfter(mem: seq<Word>, a: Access): (m: seq<Word>)
    requires InRange(a, |mem|)
    ensures |m| == |mem|
  {
    match a
    case Load(_, _, _) => mem
    case Store(addr, size, data) =>
      mem[addr / 4 := WriteLanes(mem[addr / 4], StoreLanes(addr, size, data), ByteEnable(addr, size))]
  }

  function WordRead(mem: seq<Word>, a: Access): Word
    requires InRange(a, |mem|)
  {
    if a.Load? then LoadExtract(a.addr, a.size, a.unsigned, mem[a.addr / 4]) else 0
  }

  /** The byte array: a store replaces `Width` bytes, a load reads as many, least significant first. */
  function FlatAfter(bytes: seq<int>, a: Access): (m: seq<int>)
    ensures |m| == |bytes|
  {
    match a
    case Load(_, _, _) => bytes
    case Store(addr, size, data) =>
      seq(|bytes|, i requires 0 <= i < |bytes| =>
        if addr <= i < addr + Width(size) then Lane(data, i - addr) else bytes[i])
  }

  /** `n` bytes from `at`, least significant first. */
  function FromBytes(bytes: seq<int>, at: nat, n: nat): int
    requires at + n <= |bytes|
    decreases n
  {
    if n == 0 then 0 else bytes[at] + 0x100 * FromBytes(bytes, at + 1, n - 1)
  }

  /** Sign extension of the low `8 * n` bits, as a register value. */
  function SignExtend(v: int, n: nat): Word {
    if n == 1 && v >= 0x80 then Wrap(v - 0x100) else if n == 2 && v >= 0x8000 then Wrap(v - 0x1_0000) else Wrap(v)
  }

  function FlatRead(bytes: seq<int>, a: Access): Word
    requires a.addr + Width(a.size) <= |bytes|
  {
    if a.Store? then 0
    else
      var v := FromBytes(bytes, a.addr, Width(a.size));
      if a.unsigned then Wrap(v) else SignExtend(v, Width(a.size))
  }

  /** The bytes a word memory holds. */
  function Flat(mem: seq<Word>): (b: seq<int>)
    ensures |b| == 4 * |mem|
  {
    seq(4 * |mem|, i requires 0 <= i < 4 * |mem| => Lane(mem[i / 4], i % 4))
  }

  // ---- One access -----------------------------------------------------------------------------------

  /** Four digits in base 256, cut off one after the other. */
  lemma FourDigits(b0: nat, b1: nat, b2: nat, b3: nat, w: nat)
    requires b0 < 0x100 && b1 < 0x100 && b2 < 0x100 && b3 < 0x100
    requires w == b0 + 0x100 * (b1 + 0x100 * (b2 + 0x100 * b3))
    ensures w < W32 && w % 0x100 == b0 && w / 0x100 % 0x100 == b1
    ensures w / 0x1_0000 % 0x100 == b2 && w / 0x100_0000 % 0x100 == b3
  {
    var (q2, q1) := (b2 + 0x100 * b3, b1 + 0x100 * (b2 + 0x100 * b3));
    OneDigit(b0, q1, w);
    OneDigit(b1, q2, q1);
    OneDigit(b2, b3, q2);
    DivDiv(w, 0x100, 0x100);
    DivDiv(w, 0x1_0000, 0x100);
  }

  lemma OneDigit(d: nat, q: nat, w: nat)
    requires d < 0x100 && w == d + 0x100 * q
    ensures w % 0x100 == d && w / 0x100 == q
  {
  }

  /** The lanes of a word put together from bytes. */
  lemma LanesOf(b0: nat, b1: nat, b2: nat, b3: nat)
    requires b0 < 0x100 && b1 < 0x100 && b2 < 0x100 && b3 < 0x100
    ensures
      var w := b0 + b1 * 0x100 + b2 * 0x1_0000 + b3 * 0x100_0000;
      && 0 <= w < W32 && Lane(w, 0) == b0 && Lane(w, 1) == b1 && Lane(w, 2) == b2 && Lane(w, 3) == b3
  {
    FourDigits(b0, b1, b2, b3, b0 + b1 * 0x100 + b2 * 0x1_0000 + b3 * 0x100_0000);
  }

  /** The two halves of a word. */
  lemma Halves(w: Word)
    ensures w % 0x1_0000 == Lane(w, 0) + 0x100 * Lane(w, 1)
    ensures w / 0x1_0000 % 0x1_0000 == Lane(w, 2) + 0x100 * Lane(w, 3)
  {
    TwoDigits(w, 0x100, 0x100);
    TwoDigits(w / 0x1_0000, 0x100, 0x100);
    DivDiv(w, 0x1_0000, 0x100);
  }

  /** A word is its four lanes. */
  lemma WordOfLanes(w: Word)
    ensures w == Lane(w, 0) + Lane(w, 1) * 0x100 + Lane(w, 2) * 0x1_0000 + Lane(w, 3) * 0x100_0000
  {
    Halves(w);
    hide Lane;
    var hi := w / 0x1_0000;
    SmallMod(hi, 0x1_0000);
    assert w == hi * 0x1_0000 + w % 0x1_0000;
  }

  lemma LaneRange(w: Word, k: nat)
    ensures 0 <= Lane(w, k) < 0x100
  {
  }

  /** Enabled lanes take the new byte, the others keep theirs. */
  lemma WrittenLane(was: Word, data: Word, be: Word, k: nat)
    requires k < 4
    ensures Lane(WriteLanes(was, data, be), k) == if Bit(be, Pow2(k)) then Lane(data, k) else Lane(was, k)
  {
    assert Pow2(0) == 1 && Pow2(1) == 2 && Pow2(2) == 4 && Pow2(3) == 8;
    hide Lane, Bit;
    forall i: nat, w: Word ensures 0 <= Lane(w, i) < 0x100 { LaneRange(w, i); }
    LanesOf(if Bit(be, 1) then Lane(data, 0) else Lane(was, 0), if Bit(be, 2) then Lane(data, 1) else Lane(was, 1),
            if Bit(be, 4) then Lane(data, 2) else Lane(was, 2), if Bit(be, 8) then Lane(data, 3) else Lane(was, 3));
  }

  /** The bits of every enable pattern a store can produce. */
  lemma PatternBits()
    ensures Bit(1, 1) && !Bit(1, 2) && !Bit(1, 4) && !Bit(1, 8) && !Bit(2, 1) && Bit(2, 2) && !Bit(2, 4) && !Bit(2, 8)
    ensures !Bit(4, 1) && !Bit(4, 2) && Bit(4, 4) && !Bit(4, 8) && !Bit(8, 1) && !Bit(8, 2) && !Bit(8, 4) && Bit(8, 8)
    ensures Bit(3, 1) && Bit(3, 2) && !Bit(3, 4) && !Bit(3, 8) && !Bit(12, 1) && !Bit(12, 2) && Bit(12, 4) && Bit(12, 8)
    ensures Bit(15, 1) && Bit(15, 2) && Bit(15, 4) && Bit(15, 8)
  {
  }

  /** All four byte enables replace the whole word. */
  lemma AllEnabled(was: Word, data: Word)
    ensures WriteLanes(was, data, 15) == data
  {
    PatternBits();
    hide Lane, Bit;
    WordOfLanes(data);
  }

  /** Which bits a one-hot, a two-wide and a full enable have set. */
  lemma EnableBits(off: nat, k: nat)
    requires off < 4 && k < 4
    ensures Bit(Pow2(off) % 16, Pow2(k)) <==> k == off
    ensures off % 2 == 0 ==> (Bit(3 * Pow2(off) % 16, Pow2(k)) <==> off <= k < off + 2)
    ensures Bit(0xF, Pow2(k))
  {
    assert Pow2(0) == 1 && Pow2(1) == 2 && Pow2(2) == 4 && Pow2(3) == 8;
    PatternBits();
    hide Pow2, Bit;
    assert off == 0 || off == 1 || off == 2 || off == 3;
    assert k == 0 || k == 1 || k == 2 || k == 3;
  }

  /** A byte or halfword store shifts its data to the addressed lane. */
  lemma ShiftedByte(addr: Word, data: Word)
    ensures
      var b, off := Lane(data, 0), addr % 4;
      StoreLanes(addr, 0, data) ==
        if off == 0 then b else if off == 1 then b * 0x100 else if off == 2 then b * 0x1_0000 else b * 0x100_0000
  {
    var b := data % 0x100;
    assert b == Lane(data, 0);
    NoCarry(b, b);
    hide Lane, Wrap;
    assert addr % 4 == 0 || addr % 4 == 1 || addr % 4 == 2 || addr % 4 == 3;
  }

  lemma ShiftedHalf(addr: Word, data: Word)
    requires addr % 2 == 0
    ensures
      var h := Lane(data, 0) + Lane(data, 1) * 0x100;
      StoreLanes(addr, 1, data) == if addr % 4 == 0 then h else h * 0x1_0000
  {
    Halves(data);
    NoCarry(0, data % 0x1_0000);
    hide Lane, Wrap;
    assert addr % 4 == 0 || addr % 4 == 2;
  }

  lemma NoCarry(b: nat, h: nat)
    requires b < 0x100 && h < 0x1_0000
    ensures Wrap(b) == b && Wrap(b * 0x100) == b * 0x100 && Wrap(b * 0x1_0000) == b * 0x1_0000
    ensures Wrap(b * 0x100_0000) == b * 0x100_0000 && Wrap(h) == h && Wrap(h * 0x1_0000) == h * 0x1_0000
  {
  }

  lemma ByteLanes(addr: Word, data: Word, k: nat)
    requires k < 4
    ensures Bit(ByteEnable(addr, 0), Pow2(k)) <==> k == addr % 4
    ensures k == addr % 4 ==> Lane(StoreLanes(addr, 0, data), k) == Lane(data, 0)
  {
    hide Lane, Bit, Pow2, StoreLanes;
    EnableBits(addr % 4, k);
    ShiftedByte(addr, data);
    var b := Lane(data, 0);
    LaneRange(data, 0);
    LanesOf(b, 0, 0, 0);
    LanesOf(0, b, 0, 0);
    LanesOf(0, 0, b, 0);
    LanesOf(0, 0, 0, b);
  }

  lemma HalfLanes(addr: Word, data: Word, k: nat)
    requires k < 4 && addr % 2 == 0
    ensures Bit(ByteEnable(addr, 1), Pow2(k)) <==> addr % 4 <= k < addr % 4 + 2
    ensures addr % 4 <= k < addr % 4 + 2 ==> Lane(StoreLanes(addr, 1, data), k) == Lane(data, k - addr % 4)
  {
    hide Lane, Bit, Pow2, StoreLanes;
    EnableBits(addr % 4, k);
    ShiftedHalf(addr, data);
    var (b0, b1) := (Lane(data, 0), Lane(data, 1));
    LaneRange(data, 0);
    LaneRange(data, 1);
    LanesOf(b0, b1, 0, 0);
    LanesOf(0, 0, b0, b1);
  }

  /** A misaligned store enables no lane: whatever it would write, the word stays. */
  lemma MisalignedStoresNothing(addr: Word, size: Word, data: Word, was: Word)
    requires !AlignOk(addr, size)
    ensures WriteLanes(was, StoreLanes(addr, size, data), ByteEnable(addr, size)) == was
  {
    WordOfLanes(was);
    assert ByteEnable(addr, size) == 0;
    hide Lane;
  }

  /** The enables and shifted data of a store: byte `k` of the word is byte `k - offset` of the data. */
  lemma StoreLane(addr: Word, size: Word, data: Word, k: nat)
    requires AlignOk(addr, size) && k < 4
    ensures Bit(ByteEnable(addr, size), Pow2(k)) <==> addr % 4 <= k < addr % 4 + Width(size)
    ensures addr % 4 <= k < addr % 4 + Width(size) ==> Lane(StoreLanes(addr, size, data), k) == Lane(data, k - addr % 4)
  {
    if size == 0 { ByteLanes(addr, data, k); }
    else if size == 1 { HalfLanes(addr, data, k); }
    else { EnableBits(0, k); }
    hide Lane, Bit, Pow2;
  }

  /** A store in the word RAM is the store in the byte array. */
  lemma StoreIsFlat(mem: seq<Word>, a: Access)
    requires InRange(a, |mem|)
    ensures Flat(WordAfter(mem, a)) == FlatAfter(Flat(mem), a)
  {
    if a.Store? {
      var (at, after) := (a.addr / 4, WordAfter(mem, a));
      hide Lane, WriteLanes, StoreLanes, ByteEnable, Width, Bit, Pow2;
      forall i | 0 <= i < 4 * |mem| ensures Flat(after)[i] == FlatAfter(Flat(mem), a)[i] {
        if i / 4 == at {
          WrittenLane(mem[at], StoreLanes(a.addr, a.size, a.data), ByteEnable(a.addr, a.size), i % 4);
          StoreLane(a.addr, a.size, a.data, i % 4);
        } else {
          WidthFits(a);
        }
      }
    }
  }

  /** An aligned access stays inside its word. */
  lemma WidthFits(a: Access)
    requires AlignOk(a.addr, a.size)
    ensures a.addr % 4 + Width(a.size) <= 4 && a.addr == a.addr / 4 * 4 + a.addr % 4
  {
  }

  lemma Extended(v: nat)
    ensures 0x80 <= v < 0x100 ==> v + 0xFFFF_FF00 == Wrap(v - 0x100)
    ensures 0x8000 <= v < 0x1_0000 ==> v + 0xFFFF_0000 == Wrap(v - 0x1_0000)
    ensures v < W32 ==> v == Wrap(v)
  {
  }

  /** The value a load takes from its word. */
  function Raw(w: Word, off: nat, size: Word): nat {
    if size == 0 then w / LaneWeight(off) % 0x100
    else if size == 1 then if off / 2 == 1 then w / 0x1_0000 % 0x1_0000 else w % 0x1_0000
    else w
  }

  lemma ExtractIsExtend(a: Access, w: Word)
    requires a.Load? && AlignOk(a.addr, a.size)
    ensures
      var v := Raw(w, a.addr % 4, a.size);
      LoadExtract(a.addr, a.size, a.unsigned, w) == if a.unsigned then Wrap(v) else SignExtend(v, Width(a.size))
  {
    var v := Raw(w, a.addr % 4, a.size);
    assert a.addr / 2 % 2 == a.addr % 4 / 2;
    Extended(v);
    hide Wrap, LaneWeight;
  }

  lemma FlatAt(mem: seq<Word>, i: nat, k: nat)
    requires i < |mem| && k < 4
    ensures 4 * i + k < 4 * |mem| && Flat(mem)[4 * i + k] == Lane(mem[i], k)
  {
    hide Lane;
    assert (4 * i + k) / 4 == i && (4 * i + k) % 4 == k;
  }

  /** A word's lanes, read out as a load of each width takes them. */
  lemma RawLanes(w: Word, off: nat, size: Word)
    requires off < 4
    ensures size == 0 ==> Raw(w, off, size) == Lane(w, off)
    ensures size == 1 && off % 2 == 0 ==> Raw(w, off, size) == Lane(w, off) + 0x100 * Lane(w, off + 1)
    ensures
      size == 2 ==>
        Raw(w, off, size) == Lane(w, 0) + 0x100 * Lane(w, 1) + 0x1_0000 * Lane(w, 2) + 0x100_0000 * Lane(w, 3)
  {
    Halves(w);
    WordOfLanes(w);
    assert Lane(w, off) == w / LaneWeight(off) % 0x100;
    hide Lane, LaneWeight;
  }

  lemma BytesAreRaw(mem: seq<Word>, a: Access)
    requires InRange(a, |mem|)
    ensures a.addr + Width(a.size) <= 4 * |mem|
    ensures FromBytes(Flat(mem), a.addr, Width(a.size)) == Raw(mem[a.addr / 4], a.addr % 4, a.size)
  {
    hide FromBytes, Flat, Raw, Lane;
    WidthFits(a);
    var (i, off) := (a.addr / 4, a.addr % 4);
    if a.size == 0 { OneByteIsRaw(mem, i, off); }
    else if a.size == 1 { TwoBytesAreRaw(mem, i, off); }
    else { FourBytesAreRaw(mem, i); }
    assert a.addr == 4 * i + off;
  }

  lemma OneByteIsRaw(mem: seq<Word>, i: nat, off: nat)
    requires i < |mem| && off < 4
    ensures FromBytes(Flat(mem), 4 * i + off, 1) == Raw(mem[i], off, 0)
  {
    hide Lane, Raw, Flat;
    RawLanes(mem[i], off, 0);
    FlatAt(mem, i, off);
    assert FromBytes(Flat(mem), 4 * i + off, 1) == Flat(mem)[4 * i + off];
  }

  lemma TwoBytesAreRaw(mem: seq<Word>, i: nat, off: nat)
    requires i < |mem| && off + 1 < 4 && off % 2 == 0
    ensures FromBytes(Flat(mem), 4 * i + off, 2) == Raw(mem[i], off, 1)
  {
    hide Lane, Raw, Flat, FromBytes;
    RawLanes(mem[i], off, 1);
    FlatAt(mem, i, off);
    FlatAt(mem, i, off + 1);
    TwoBytes(Flat(mem), 4 * i + off);
  }

  lemma FourBytesAreRaw(mem: seq<Word>, i: nat)
    requires i < |mem|
    ensures FromBytes(Flat(mem), 4 * i, 4) == Raw(mem[i], 0, 2)
  {
    hide Lane, Raw, Flat, FromBytes;
    RawLanes(mem[i], 0, 2);
    FlatAt(mem, i, 0);
    FlatAt(mem, i, 1);
    FlatAt(mem, i, 2);
    FlatAt(mem, i, 3);
    FourBytes(Flat(mem), 4 * i);
  }

  lemma TwoBytes(b: seq<int>, at: nat)
    requires at + 2 <= |b|
    ensures FromBytes(b, at, 2) == b[at] + 0x100 * b[at + 1]
  {
    assert FromBytes(b, at + 1, 1) == b[at + 1];
  }

  lemma FourBytes(b: seq<int>, at: nat)
    requires at + 4 <= |b|
    ensures FromBytes(b, at, 4) == b[at] + 0x100 * b[at + 1] + 0x1_0000 * b[at + 2] + 0x100_0000 * b[at + 3]
  {
    assert FromBytes(b, at + 2, 2) == b[at + 2] + 0x100 * b[at + 3];
  }

  /** A load from the word RAM returns what the byte array holds, extended as asked. */
  lemma LoadIsFlat(mem: seq<Word>, a: Access)
    requires InRange(a, |mem|)
    ensures a.addr + Width(a.size) <= 4 * |mem| && WordRead(mem, a) == FlatRead(Flat(mem), a)
  {
    BytesAreRaw(mem, a);
    if a.Load? { ExtractIsExtend(a, mem[a.addr / 4]); }
    hide FromBytes, Flat, LoadExtract, Raw, SignExtend, Width, Wrap;
  }

  // ---- Runs -----------------------------------------------------------------------------------------

  /** What a program reads back from either memory. */
  function WordRun(mem: seq<Word>, trace: seq<Access>): seq<Word>
    requires forall a | a in trace :: InRange(a, |mem|)
    decreases |trace|
  {
    if trace == [] then [] else [WordRead(mem, trace[0])] + WordRun(WordAfter(mem, trace[0]), trace[1..])
  }

  function FlatRun(bytes: seq<int>, trace: seq<Access>): seq<Word>
    requires forall a | a in trace :: a.addr + Width(a.size) <= |bytes|
    decreases |trace|
  {
    if trace == [] then [] else [FlatRead(bytes, trace[0])] + FlatRun(FlatAfter(bytes, trace[0]), trace[1..])
  }

  /** Over every sequence of aligned byte, halfword and word accesses, in any mix, the load/store unit over
      byte-enabled words returns what a flat little-endian byte array returns. */
  lemma {:induction false} LanesAreFlat(mem: seq<Word>, trace: seq<Access>)
    requires forall a | a in trace :: InRange(a, |mem|)
    ensures forall a | a in trace :: a.addr + Width(a.size) <= 4 * |mem|
    ensures WordRun(mem, trace) == FlatRun(Flat(mem), trace)
    decreases |trace|
  {
    hide WordRead, FlatRead, WordAfter, FlatAfter, Flat, InRange, Width;
    forall a | a in trace ensures a.addr + Width(a.size) <= 4 * |mem| { LoadIsFlat(mem, a); }
    if trace != [] {
      LoadIsFlat(mem, trace[0]);
      StoreIsFlat(mem, trace[0]);
      LanesAreFlat(WordAfter(mem, trace[0]), trace[1..]);
    }
  }
}
