/** The CRC-32 of the ZIP writer: a 256-entry table filled on first use, then one lookup per byte.

    The reference is the bit-serial shift register of section 8 of RFC 1952, which consumes one message
    bit at a time and knows nothing of tables. The table-driven loop is proved to compute it, and the
    checksum is proved to change under every alteration confined to four consecutive bytes. */
module Crc32 {
  const POLYNOMIAL: bv32 := 0xedb88320
  const ALL_ONES: bv32 := 0xffff_ffff

  /** One shift of the register. */
  function Step(c: bv32): bv32 {
    if c & 1 == 1 then POLYNOMIAL ^ (c >> 1) else c >> 1
  }

  function Xor(a: bv32, b: bv32): bv32 {
    a ^ b
  }

  /** f applied n times. */
  function Iterate<T>(f: T -> T, n: nat, c: T): T {
    if n == 0 then c else Iterate(f, n - 1, f(c))
  }

  function Steps(n: nat, c: bv32): bv32 {
    Iterate(Step, n, c)
  }

  // ---- the bit-serial reference ----

  /** The low n bits of x, least significant first: the order in which RFC 1952 sends a byte. */
  function Bits(x: bv32, n: nat): seq<bool>
    decreases n
  {
    if n == 0 then [] else [x & 1 == 1] + Bits(x >> 1, n - 1)
  }

  function TakeBit(crc: bv32, bit: bool): bv32 {
    Step(crc ^ (if bit then 1 else 0))
  }

  function TakeBits(crc: bv32, bits: seq<bool>): bv32
    decreases |bits|
  {
    if bits == [] then crc else TakeBits(TakeBit(crc, bits[0]), bits[1..])
  }

  function TakeBytes(crc: bv32, data: seq<bv8>): bv32
    decreases |data|
  {
    if data == [] then crc else TakeBytes(TakeBits(crc, Bits(data[0] as bv32, 8)), data[1..])
  }

  function Crc(data: seq<bv8>): bv32 {
    Xor(TakeBytes(ALL_ONES, data), ALL_ONES)
  }

  // ---- the polynomial ----

  /** Where the register holds the coefficient of x^k. */
  function Term(k: nat): bv32
    requires k < 32
  {
    0x8000_0000 >> k
  }

  /** x^32 + x^26 + x^23 + x^22 + x^16 + x^12 + x^11 + x^10 + x^8 + x^7 + x^5 + x^4 + x^2 + x + 1, of section 8 of
      RFC 1952; its leading term drops out of the register. */
  lemma PolynomialTerms()
    ensures POLYNOMIAL == Term(26) | Term(23) | Term(22) | Term(16) | Term(12) | Term(11) | Term(10) | Term(8)
      | Term(7) | Term(5) | Term(4) | Term(2) | Term(1) | Term(0)
  {
  }

  /** A known checksum: that of one zero byte, with the register and the result inverted. */
  lemma ZeroByte()
    ensures Crc([0]) == 0xd202_ef8d
  {
    assert [0 as bv8][1..] == [] && Bits(0 as bv32, 8) == ZeroRun(8) by {
      ZeroBits(8);
    }
    ZerosShift(ALL_ONES, 8);
    EightSteps();
    assert TakeBytes(0x2dfd_1072, []) == 0x2dfd_1072;
  }

  function ZeroRun(n: nat): seq<bool> {
    if n == 0 then [] else [false] + ZeroRun(n - 1)
  }

  lemma {:induction false} ZeroBits(n: nat)
    ensures Bits(0, n) == ZeroRun(n)
  {
    if n > 0 {
      ZeroBits(n - 1);
    }
  }

  lemma {:induction false} ZerosShift(crc: bv32, n: nat)
    ensures TakeBits(crc, ZeroRun(n)) == Iterate(Step, n, crc)
    decreases n
  {
    if n > 0 {
      assert ZeroRun(n)[1..] == ZeroRun(n - 1) && crc ^ 0 == crc;
      ZerosShift(Step(crc), n - 1);
    }
  }

  lemma EightSteps()
    ensures Iterate(Step, 8, ALL_ONES) == 0x2dfd_1072
  {
    assert Step(ALL_ONES) == 0x9247_7cdf && Step(0x9247_7cdf) == 0xa49b_3d4f;
    assert Step(0xa49b_3d4f) == 0xbff5_1d87 && Step(0xbff5_1d87) == 0xb242_0de3;
    assert Step(0xb242_0de3) == 0xb499_85d1 && Step(0xb499_85d1) == 0xb7f4_41c8;
    assert Step(0xb7f4_41c8) == 0x5bfa_20e4 && Step(0x5bfa_20e4) == 0x2dfd_1072;
  }

  // ---- the shift step is linear and injective ----

  lemma XorParts(a: bv32, b: bv32)
    ensures (a ^ b) & 1 == (a & 1) ^ (b & 1)
    ensures (a ^ b) >> 1 == (a >> 1) ^ (b >> 1)
  {
  }

  lemma XorRegroup(a: bv32, b: bv32, p: bv32)
    ensures (p ^ a) ^ (p ^ b) == a ^ b
    ensures (p ^ a) ^ b == p ^ (a ^ b)
    ensures a ^ (p ^ b) == p ^ (a ^ b)
  {
  }

  lemma LowBit(a: bv32)
    ensures a & 1 == 0 || a & 1 == 1
  {
  }

  lemma StepLinear(a: bv32, b: bv32)
    ensures Step(a ^ b) == Step(a) ^ Step(b)
  {
    XorParts(a, b);
    LowBit(a);
    LowBit(b);
    XorRegroup(a >> 1, b >> 1, POLYNOMIAL);
  }

  lemma {:induction false} IterateHomomorphism<T(!new)>(f: T -> T, op: (T, T) -> T, n: nat, a: T, b: T)
    requires forall x, y :: f(op(x, y)) == op(f(x), f(y))
    ensures Iterate(f, n, op(a, b)) == op(Iterate(f, n, a), Iterate(f, n, b))
    decreases n
  {
    if n > 0 {
      IterateHomomorphism(f, op, n - 1, f(a), f(b));
    }
  }

  lemma {:induction false} IterateInjective<T(!new)>(f: T -> T, n: nat, a: T, b: T)
    requires forall x, y :: f(x) == f(y) ==> x == y
    requires Iterate(f, n, a) == Iterate(f, n, b)
    ensures a == b
    decreases n
  {
    if n > 0 {
      IterateInjective(f, n - 1, f(a), f(b));
    }
  }

  lemma {:induction false} IterateChain<T>(f: T -> T, chain: seq<T>)
    requires chain != [] && forall k :: 0 <= k < |chain| - 1 ==> f(chain[k]) == chain[k + 1]
    ensures Iterate(f, |chain| - 1, chain[0]) == chain[|chain| - 1]
    decreases |chain|
  {
    if |chain| > 1 {
      IterateChain(f, chain[1..]);
    }
  }

  lemma {:induction false} IterateAdd<T>(f: T -> T, m: nat, n: nat, c: T)
    ensures Iterate(f, m + n, c) == Iterate(f, n, Iterate(f, m, c))
    decreases m
  {
    if m > 0 {
      IterateAdd(f, m - 1, n, f(c));
    }
  }

  lemma StepsLinear(n: nat, a: bv32, b: bv32)
    ensures Steps(n, Xor(a, b)) == Xor(Steps(n, a), Steps(n, b))
  {
    assert forall x, y :: Step(Xor(x, y)) == Xor(Step(x), Step(y)) by {
      forall x, y ensures Step(Xor(x, y)) == Xor(Step(x), Step(y)) {
        StepLinear(x, y);
      }
    }
    hide Step, Xor;
    IterateHomomorphism(Step, Xor, n, a, b);
  }

  /** The polynomial's top bit is set, so the bit shifted out can be read off the result. */
  lemma TopBitTellsLowBit(c: bv32)
    ensures (c >> 1) & 0x8000_0000 == 0
    ensures (POLYNOMIAL ^ (c >> 1)) & 0x8000_0000 == 0x8000_0000
    ensures (POLYNOMIAL ^ (POLYNOMIAL ^ (c >> 1))) == c >> 1
  {
  }

  function Odd(c: bv32): bv32 {
    c & 1
  }

  function Half(c: bv32): bv32 {
    c >> 1
  }

  lemma HalvesDetermine(a: bv32, b: bv32)
    requires Odd(a) == Odd(b) && Half(a) == Half(b)
    ensures a == b
  {
  }

  /** The top bit of a step tells the low bit of its argument, and the rest of it the other bits. */
  function LowBitOf(r: bv32): bv32 {
    if r & 0x8000_0000 == 0 then 0 else 1
  }

  function RestOf(r: bv32): bv32 {
    if r & 0x8000_0000 == 0 then r else POLYNOMIAL ^ r
  }

  lemma StepTells(c: bv32)
    ensures LowBitOf(Step(c)) == Odd(c) && RestOf(Step(c)) == Half(c)
  {
    TopBitTellsLowBit(c);
    LowBit(c);
  }

  lemma StepInjective(a: bv32, b: bv32)
    requires Step(a) == Step(b)
    ensures a == b
  {
    StepTells(a);
    StepTells(b);
    hide Step, LowBitOf, RestOf, Odd, Half;
    HalvesDetermine(a, b);
  }

  lemma StepsInjective(n: nat, a: bv32, b: bv32)
    requires Steps(n, a) == Steps(n, b)
    ensures a == b
  {
    forall x, y | Step(x) == Step(y) ensures x == y {
      StepInjective(x, y);
    }
    IterateInjective(Step, n, a, b);
  }

  // ---- a whole byte at once ----

  function ShiftRight(x: bv32, n: nat): bv32
    decreases n
  {
    if n == 0 then x else ShiftRight(x >> 1, n - 1)
  }

  lemma BitIn(crc: bv32, x: bv32)
    ensures x & 1 == 1 ==> (crc ^ 1) & 1 == (crc ^ x) & 1 && (crc ^ 1) >> 1 == crc >> 1
    ensures x & 1 == 0 ==> (crc ^ 0) & 1 == (crc ^ x) & 1 && (crc ^ 0) >> 1 == crc >> 1
  {
  }

  /** Only the low bit of what is xored in meets the polynomial now; the rest just moves down. */
  lemma StepSplits(crc: bv32, x: bv32)
    ensures Step(crc ^ x) == TakeBit(crc, x & 1 == 1) ^ (x >> 1)
  {
    LowBit(x);
    XorParts(crc, x);
    BitIn(crc, x);
    XorRegroup(crc >> 1, x >> 1, POLYNOMIAL);
  }

  lemma BitsUnfold(crc: bv32, x: bv32, n: nat)
    requires n > 0
    ensures TakeBits(crc, Bits(x, n)) == TakeBits(TakeBit(crc, x & 1 == 1), Bits(x >> 1, n - 1))
  {
    hide TakeBit;
    assert Bits(x, n)[1..] == Bits(x >> 1, n - 1);
  }

  /** Feeding n bits one by one is the same as xoring them in together and shifting n times. */
  lemma {:induction false} SerialIsParallel(crc: bv32, x: bv32, n: nat)
    requires ShiftRight(x, n) == 0
    ensures TakeBits(crc, Bits(x, n)) == Steps(n, Xor(crc, x))
    decreases n
  {
    if n > 0 {
      var next, rest := TakeBit(crc, x & 1 == 1), x >> 1;
      assert Step(Xor(crc, x)) == Xor(next, rest) by {
        StepSplits(crc, x);
      }
      BitsUnfold(crc, x, n);
      hide Step, Xor, TakeBit;
      SerialIsParallel(next, rest, n - 1);
    } else {
      assert crc ^ 0 == crc;
    }
  }

  lemma ShiftTwo(x: bv32, n: nat)
    ensures ShiftRight(x, n + 2) == ShiftRight(x >> 1 >> 1, n)
  {
    assert ShiftRight(x, n + 2) == ShiftRight(x >> 1, n + 1);
  }

  lemma ByteFits(x: bv32)
    requires x < 256
    ensures x >> 1 >> 1 >> 1 >> 1 >> 1 >> 1 >> 1 >> 1 == 0
  {
  }

  lemma ByteShiftsOut(x: bv32)
    requires x < 256
    ensures ShiftRight(x, 8) == 0
  {
    ByteFits(x);
    var x2 := x >> 1 >> 1;
    ShiftTwo(x, 6);
    ShiftTwo(x2, 4);
    ShiftTwo(x2 >> 1 >> 1, 2);
    ShiftTwo(x2 >> 1 >> 1 >> 1 >> 1, 0);
  }

  lemma ByteStep(crc: bv32, b: bv8)
    ensures TakeBits(crc, Bits(b as bv32, 8)) == Steps(8, Xor(crc, b as bv32))
  {
    ByteShiftsOut(b as bv32);
    SerialIsParallel(crc, b as bv32, 8);
  }

  lemma EvenStep(c: bv32)
    requires Odd(c) == 0
    ensures Step(c) == Half(c)
  {
  }

  lemma ClearLow(x: bv32)
    requires x & 0xff == 0
    ensures Odd(x) == 0 && Odd(Half(x)) == 0 && Odd(Half(Half(x))) == 0 && Odd(Half(Half(Half(x)))) == 0
    ensures var h := Half(Half(Half(Half(x))));
      h & 0xf == 0 && Half(Half(Half(Half(h)))) == x >> 8
  {
  }

  lemma FourSteps(x: bv32)
    requires Odd(x) == 0 && Odd(Half(x)) == 0 && Odd(Half(Half(x))) == 0 && Odd(Half(Half(Half(x)))) == 0
    ensures Steps(4, x) == Half(Half(Half(Half(x))))
  {
    hide Step, Odd, Half;
    EvenStep(x);
    EvenStep(Half(x));
    EvenStep(Half(Half(x)));
    EvenStep(Half(Half(Half(x))));
    IterateChain(Step, [x, Half(x), Half(Half(x)), Half(Half(Half(x))), Half(Half(Half(Half(x))))]);
  }

  lemma ClearNibble(x: bv32)
    requires x & 0xf == 0
    ensures Odd(x) == 0 && Odd(Half(x)) == 0 && Odd(Half(Half(x))) == 0 && Odd(Half(Half(Half(x)))) == 0
  {
  }

  /** A value whose low byte is clear is only shifted by the next eight steps. */
  lemma ClearByteShifts(x: bv32)
    requires x & 0xff == 0
    ensures Steps(8, x) == x >> 8
  {
    ClearLow(x);
    var h := Half(Half(Half(Half(x))));
    ClearNibble(h);
    hide Half, Odd, Step;
    FourSteps(x);
    FourSteps(h);
    IterateAdd(Step, 4, 4, x);
  }

  function LowByte(c: bv32): bv32 {
    c & 0xff
  }

  function HighBytes(c: bv32): bv32 {
    c >> 8
  }

  /** What one table lookup does to the register. */
  function TableStep(crc: bv32, b: bv8): bv32 {
    Xor(Steps(8, LowByte(Xor(crc, b as bv32))), HighBytes(crc))
  }

  lemma SplitLowByte(crc: bv32, x: bv32)
    requires x < 256
    ensures Xor(crc, x) == Xor(Xor(crc, x) & 0xff, Xor(crc, x) & 0xffff_ff00)
    ensures (Xor(crc, x) & 0xffff_ff00) & 0xff == 0
    ensures (Xor(crc, x) & 0xffff_ff00) >> 8 == crc >> 8
  {
  }

  lemma TableStepIsByteStep(crc: bv32, b: bv8)
    ensures TakeBits(crc, Bits(b as bv32, 8)) == TableStep(crc, b)
  {
    var w := Xor(crc, b as bv32);
    ByteStep(crc, b);
    SplitLowByte(crc, b as bv32);
    ClearByteShifts(w & 0xffff_ff00);
    hide Steps, Xor, TakeBits;
    StepsLinear(8, w & 0xff, w & 0xffff_ff00);
  }

  // ---- the table and the loop ----

  /** One entry: eight shifts of its index. */
  method TableEntry(n: bv32) returns (c: bv32)
    ensures c == Steps(8, n)
  {
    c := n;
    for k := 0 to 8
      invariant Iterate(Step, 8 - k, c) == Steps(8, n)
    {
      c := ShiftOnce(c);
    }
  }

  method ShiftOnce(c: bv32) returns (r: bv32)
    ensures r == Step(c)
  {
    r := if c & 1 != 0 then 0xedb88320 ^ (c >> 1) else c >> 1;
    LowBit(c);
  }

  ghost predicate IsTable(table: seq<bv32>) {
    |table| == 256 && forall i :: 0 <= i < 256 ==> table[i] == Steps(8, i as bv32)
  }

  /** A byte of the register as a table index. */
  function IndexOf(c: bv32): (i: nat)
    requires c < 256
    ensures i < 256
  {
    IndexInRange(c);
    c as int
  }

  lemma IndexInRange(c: bv32)
    requires c < 256
    ensures c as int < 256
  {
  }

  lemma IndexBack(c: bv32)
    requires c < 256
    ensures IndexOf(c) as bv32 == c
  {
  }

  lemma LowByteSmall(c: bv32)
    ensures LowByte(c) < 256
  {
  }

  function Index(crc: bv32, b: bv8): (i: nat)
    ensures i < 256
  {
    LowByteSmall(Xor(crc, b as bv32));
    IndexOf(LowByte(Xor(crc, b as bv32)))
  }

  lemma LookupIsTableStep(table: seq<bv32>, crc: bv32, b: bv8)
    requires IsTable(table)
    ensures Xor(table[Index(crc, b)], HighBytes(crc)) == TableStep(crc, b)
  {
    hide Steps, Xor, LowByte, HighBytes, IndexOf;
    var i := Index(crc, b);
    LowByteSmall(Xor(crc, b as bv32));
    IndexBack(LowByte(Xor(crc, b as bv32)));
    assert table[i] == Steps(8, i as bv32);
  }

  class Checksum {
    /** Filled by the first call and kept for the later ones. */
    var crcTable: array?<bv32>

    ghost predicate Valid()
      reads this, crcTable
    {
      crcTable != null ==> IsTable(crcTable[..])
    }

    constructor ()
      ensures Valid() && crcTable == null
    {
      crcTable := null;
    }

    method FillTable()
      modifies this
      ensures Valid() && fresh(crcTable)
    {
      hide Step;
      var table := new bv32[256];
      for n := 0 to 256
        invariant forall i :: 0 <= i < n ==> table[i] == Steps(8, i as bv32)
      {
        var c := TableEntry(n as bv32);
        table[n] := c;
      }
      crcTable := table;
    }

    method Compute(buffer: seq<bv8>) returns (crc: bv32)
      requires Valid()
      modifies this
      ensures Valid() && crc == Crc(buffer)
      ensures if old(crcTable) != null then crcTable == old(crcTable) else fresh(crcTable)
    {
      hide TakeBits, Steps, Index, TableStep, Xor, HighBytes;
      if crcTable == null {
        FillTable();
      }
      crc := 0xffff_ffff;
      for i := 0 to |buffer|
        invariant crcTable != null && IsTable(crcTable[..])
        invariant if old(crcTable) != null then crcTable == old(crcTable) else fresh(crcTable)
        invariant TakeBytes(crc, buffer[i..]) == TakeBytes(ALL_ONES, buffer)
      {
        LookupIsTableStep(crcTable[..], crc, buffer[i]);
        TableStepIsByteStep(crc, buffer[i]);
        assert buffer[i..][1..] == buffer[i + 1..];
        crc := Xor(crcTable[Index(crc, buffer[i])], HighBytes(crc));
      }
      crc := Xor(crc, 0xffff_ffff);
    }
  }

  // ---- error detection ----

  lemma {:induction false} TakeBytesAppend(crc: bv32, a: seq<bv8>, b: seq<bv8>)
    ensures TakeBytes(crc, a + b) == TakeBytes(TakeBytes(crc, a), b)
    decreases |a|
  {
    hide TakeBits;
    if a == [] {
      assert a + b == b;
    } else {
      assert (a + b)[1..] == a[1..] + b;
      TakeBytesAppend(TakeBits(crc, Bits(a[0] as bv32, 8)), a[1..], b);
    }
  }

  lemma XorCancels(a: bv32, b: bv32, x: bv32)
    requires Xor(a, x) == Xor(b, x)
    ensures a == b
  {
    assert Xor(Xor(a, x), x) == a;
    assert Xor(Xor(b, x), x) == b;
  }

  /** Bytes that follow never make two different registers equal again. */
  lemma {:induction false} TakeBytesInjective(c: bv32, d: bv32, data: seq<bv8>)
    requires TakeBytes(c, data) == TakeBytes(d, data)
    ensures c == d
    decreases |data|
  {
    hide TakeBits, Steps, Xor;
    if data != [] {
      var x := data[0] as bv32;
      ByteStep(c, data[0]);
      ByteStep(d, data[0]);
      TakeBytesInjective(Steps(8, Xor(c, x)), Steps(8, Xor(d, x)), data[1..]);
      StepsInjective(8, Xor(c, x), Xor(d, x));
      XorCancels(c, d, x);
    }
  }

  function ShiftUp(w: bv32): bv32 {
    w << 8
  }

  /** Up to four bytes as one word, first byte lowest. */
  function Word(x: seq<bv8>): bv32
    decreases |x|
  {
    if x == [] then 0 else Xor(x[0] as bv32, ShiftUp(Word(x[1..])))
  }

  lemma {:induction false} WordFits(x: seq<bv8>)
    ensures |x| == 0 ==> Word(x) == 0
    ensures |x| <= 1 ==> Word(x) & 0xffff_ff00 == 0
    ensures |x| <= 2 ==> Word(x) & 0xffff_0000 == 0
    ensures |x| <= 3 ==> Word(x) & 0xff00_0000 == 0
    decreases |x|
  {
    if x != [] {
      WordFits(x[1..]);
    }
  }

  lemma ShiftBackBits(w: bv32)
    requires w & 0xff00_0000 == 0
    ensures ShiftUp(w) & 0xff == 0 && ShiftUp(w) >> 8 == w
  {
  }

  lemma ShiftBack(w: bv32)
    requires w & 0xff00_0000 == 0
    ensures Steps(8, ShiftUp(w)) == w
  {
    ShiftBackBits(w);
    hide Steps, ShiftUp;
    ClearByteShifts(ShiftUp(w));
  }

  lemma XorAssociative(a: bv32, b: bv32, c: bv32)
    ensures Xor(Xor(a, b), c) == Xor(a, Xor(b, c))
  {
  }

  lemma WordOfTail(x: seq<bv8>)
    requires 0 < |x| <= 4
    ensures Word(x) == Xor(x[0] as bv32, ShiftUp(Word(x[1..])))
    ensures Steps(8, ShiftUp(Word(x[1..]))) == Word(x[1..])
  {
    hide Steps, ShiftUp, Xor;
    WordFits(x[1..]);
    ShiftBack(Word(x[1..]));
  }

  /** Up to four bytes act on the register as one xored-in word. */
  lemma {:induction false} BytesActAsWord(crc: bv32, x: seq<bv8>)
    requires |x| <= 4
    ensures TakeBytes(crc, x) == Steps(8 * |x|, Xor(crc, Word(x)))
    decreases |x|
  {
    if x == [] {
      assert Xor(crc, 0) == crc;
    } else {
      WordOfTail(x);
      hide TakeBits, Xor, Step, ShiftUp, Word;
      var c, r := Xor(crc, x[0] as bv32), Word(x[1..]);
      var w := ShiftUp(r);
      XorAssociative(crc, x[0] as bv32, w);
      ByteStep(crc, x[0]);
      BytesActAsWord(Steps(8, c), x[1..]);
      StepsLinear(8, c, w);
      IterateAdd(Step, 8, 8 * |x[1..]|, Xor(c, w));
    }
  }

  function FirstByte(w: bv32): bv8 {
    (w & 0xff) as bv8
  }

  lemma WordParts(b: bv8, r: bv32)
    requires r & 0xff00_0000 == 0
    ensures FirstByte(Xor(b as bv32, ShiftUp(r))) == b
    ensures HighBytes(Xor(b as bv32, ShiftUp(r))) == r
  {
  }

  lemma WordTells(x: seq<bv8>)
    requires 0 < |x| <= 4
    ensures x[0] == FirstByte(Word(x)) && Word(x[1..]) == HighBytes(Word(x))
  {
    WordFits(x[1..]);
    hide FirstByte, HighBytes, Xor, ShiftUp;
    WordParts(x[0], Word(x[1..]));
  }

  lemma {:induction false} WordInjective(x: seq<bv8>, y: seq<bv8>)
    requires |x| == |y| <= 4 && Word(x) == Word(y)
    ensures x == y
    decreases |x|
  {
    if x != [] {
      hide Word, FirstByte, HighBytes;
      WordTells(x);
      WordTells(y);
      WordInjective(x[1..], y[1..]);
      assert x == [x[0]] + x[1..] && y == [y[0]] + y[1..];
    }
  }

  lemma XorCommutes(a: bv32, b: bv32)
    ensures Xor(a, b) == Xor(b, a)
  {
  }

  lemma SameEffectSameBytes(c: bv32, x: seq<bv8>, y: seq<bv8>)
    requires |x| == |y| <= 4 && TakeBytes(c, x) == TakeBytes(c, y)
    ensures x == y
  {
    hide TakeBytes, Xor, Steps, Word;
    BytesActAsWord(c, x);
    BytesActAsWord(c, y);
    StepsInjective(8 * |x|, Xor(c, Word(x)), Xor(c, Word(y)));
    XorCommutes(c, Word(x));
    XorCommutes(c, Word(y));
    XorCancels(Word(x), Word(y), c);
    WordInjective(x, y);
  }

  /** Any alteration confined to four consecutive bytes changes the checksum. */
  lemma BurstDetected(before: seq<bv8>, x: seq<bv8>, y: seq<bv8>, after: seq<bv8>)
    requires |x| == |y| <= 4 && x != y
    ensures Crc(before + x + after) != Crc(before + y + after)
  {
    hide TakeBytes, Xor, Steps, Word;
    var c := TakeBytes(ALL_ONES, before);
    if Crc(before + x + after) == Crc(before + y + after) {
      XorCancels(TakeBytes(ALL_ONES, before + x + after), TakeBytes(ALL_ONES, before + y + after), ALL_ONES);
      TakeBytesAppend(ALL_ONES, before + x, after);
      TakeBytesAppend(ALL_ONES, before + y, after);
      TakeBytesAppend(ALL_ONES, before, x);
      TakeBytesAppend(ALL_ONES, before, y);
      TakeBytesInjective(TakeBytes(c, x), TakeBytes(c, y), after);
      SameEffectSameBytes(c, x, y);
    }
  }
}
