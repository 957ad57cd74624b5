/** The table-driven CRC-32 of the ZIP writer, and why it is the CRC of RFC 1952 section 8.

    The code looks up one table entry for every byte.  `Crc` is the same computation one bit at a
    time, and `PolynomialCrc` is the definition both have to agree with: the remainder of a long
    division of polynomials over GF(2). */
module Crc32 {
  import opened Utf8

  // ---------------------------------------------------------------------------------------
  // The shift register
  // ---------------------------------------------------------------------------------------

  const POLY: bv32 := 0xedb88320
  const ONES: bv32 := 0xffffffff

  // The word operations have names so that the proofs below can use their laws alone.

  function Xor32(a: bv32, b: bv32): bv32 {
    a ^ b
  }

  function Half(a: bv32): bv32 {
    a >> 1
  }

  function LowBit(a: bv32): bool {
    a & 1 == 1
  }

  function LowByte(a: bv32): bv32 {
    a & 0xff
  }

  function HighBytes(a: bv32): bv32 {
    a & 0xffffff00
  }

  function DropByte(a: bv32): bv32 {
    a >> 8
  }

  function Word(b: byte): bv32 {
    (b as bv8) as bv32
  }

  function LowBits(a: bv32): bv8 {
    (a & 0xff) as bv8
  }

  function Index(a: bv32): byte {
    LowBits(a) as byte
  }

  /** One shift of the register. */
  function Step(c: bv32): bv32 {
    if LowBit(c) then Xor32(POLY, Half(c)) else Half(c)
  }

  function Steps(c: bv32, k: nat): bv32
    decreases k
  {
    if k == 0 then c else Steps(Step(c), k - 1)
  }

  /** The register after all bytes, each taken in whole and shifted out in eight steps. */
  function Register(bytes: seq<byte>): bv32 {
    if bytes == [] then ONES
    else Steps(Xor32(Register(bytes[..|bytes| - 1]), Word(bytes[|bytes| - 1])), 8)
  }

  function Crc(bytes: seq<byte>): bv32 {
    Xor32(Register(bytes), ONES)
  }

  // ---------------------------------------------------------------------------------------
  // Laws of the word operations
  // ---------------------------------------------------------------------------------------

  lemma XorAssoc(a: bv32, b: bv32, c: bv32)
    ensures Xor32(Xor32(a, b), c) == Xor32(a, Xor32(b, c))
  {
  }

  lemma HalfXor(a: bv32, b: bv32)
    ensures Half(Xor32(a, b)) == Xor32(Half(a), Half(b))
    ensures LowBit(Xor32(a, b)) == (LowBit(a) != LowBit(b))
  {
  }

  lemma DropByteXorByte(a: bv32, b: byte)
    ensures DropByte(Xor32(a, Word(b))) == DropByte(a)
  {
  }

  lemma SplitLowByte(c: bv32)
    ensures Xor32(LowByte(c), HighBytes(c)) == c && DropByte(HighBytes(c)) == DropByte(c)
  {
  }

  lemma EightHalves(h: bv32)
    ensures Half(Half(Half(Half(Half(Half(Half(Half(h)))))))) == DropByte(h)
  {
  }

  lemma HighBytesLow(c: bv32)
    ensures var h := HighBytes(c);
            !LowBit(h) && !LowBit(Half(h)) && !LowBit(Half(Half(h))) && !LowBit(Half(Half(Half(h))))
  {
  }

  lemma HighBytesLow2(c: bv32)
    ensures var h := Half(Half(Half(Half(HighBytes(c)))));
            !LowBit(h) && !LowBit(Half(h)) && !LowBit(Half(Half(h))) && !LowBit(Half(Half(Half(h))))
  {
  }

  lemma FourBytes(c: bv32)
    ensures DropByte(DropByte(DropByte(DropByte(c)))) == 0
  {
  }

  lemma LowBitsOfWord(a: bv32)
    ensures LowBits(a) as bv32 == LowByte(a)
  {
  }

  lemma BitsAndBack(x: bv8)
    ensures (x as byte) as bv8 == x
  {
  }

  lemma WordIndex(a: bv32)
    ensures Word(Index(a)) == LowByte(a)
  {
    hide LowBits, LowByte;
    LowBitsOfWord(a);
    BitsAndBack(LowBits(a));
  }

  lemma DropByteOfWord(b: byte)
    ensures DropByte(Word(b)) == 0
  {
  }

  lemma XorZero(a: bv32)
    ensures Xor32(a, 0) == a && !LowBit(0)
  {
  }

  // ---------------------------------------------------------------------------------------
  // The table
  // ---------------------------------------------------------------------------------------

  function Shr(h: bv32, k: nat): bv32
    decreases k
  {
    if k == 0 then h else Shr(Half(h), k - 1)
  }

  predicate LowClear(h: bv32, k: nat)
    decreases k
  {
    k == 0 || (!LowBit(h) && LowClear(Half(h), k - 1))
  }

  /** A bit pattern whose lowest bit is clear passes through a step unchanged but for the shift. */
  lemma StepHigh(c: bv32, h: bv32)
    requires !LowBit(h)
    ensures Step(Xor32(c, h)) == Xor32(Step(c), Half(h))
  {
    hide Xor32, Half, LowBit;
    HalfXor(c, h);
    XorAssoc(POLY, Half(c), Half(h));
  }

  lemma {:induction false} StepsHigh(c: bv32, h: bv32, k: nat)
    requires LowClear(h, k)
    ensures Steps(Xor32(c, h), k) == Xor32(Steps(c, k), Shr(h, k))
    decreases k
  {
    hide Step, Xor32, Half, LowBit;
    if k > 0 {
      StepHigh(c, h);
      StepsHigh(Step(c), Half(h), k - 1);
    }
  }

  lemma ShrByte(h: bv32)
    ensures Shr(h, 8) == DropByte(h)
  {
    hide Half, DropByte, LowBit;
    ShrUnfold4(h);
    ShrUnfold4(Half(Half(Half(Half(h)))));
    ShrAdd(h, 4, 4);
    EightHalves(h);
  }

  lemma ShrUnfold4(h: bv32)
    ensures Shr(h, 4) == Half(Half(Half(Half(h))))
  {
    hide Half;
    assert Shr(h, 4) == Shr(Half(h), 3) == Shr(Half(Half(h)), 2) == Shr(Half(Half(Half(h))), 1);
  }

  lemma {:induction false} ShrAdd(c: bv32, a: nat, b: nat)
    ensures Shr(Shr(c, a), b) == Shr(c, a + b)
    decreases a
  {
    hide Half;
    if a > 0 {
      ShrAdd(Half(c), a - 1, b);
    }
  }

  lemma {:induction false} LowClearAdd(h: bv32, a: nat, b: nat)
    requires LowClear(h, a) && LowClear(Shr(h, a), b)
    ensures LowClear(h, a + b)
    decreases a
  {
    hide Half, LowBit;
    if a > 0 {
      LowClearAdd(Half(h), a - 1, b);
    }
  }

  lemma LowClear4(h: bv32)
    requires !LowBit(h) && !LowBit(Half(h)) && !LowBit(Half(Half(h))) && !LowBit(Half(Half(Half(h))))
    ensures LowClear(h, 4)
  {
    hide Half, LowBit;
    assert LowClear(Half(Half(Half(h))), 1) && LowClear(Half(Half(h)), 2) && LowClear(Half(h), 3);
  }

  lemma HighBytesClear(c: bv32)
    ensures LowClear(HighBytes(c), 8)
  {
    hide Half, LowBit, HighBytes;
    var h := HighBytes(c);
    HighBytesLow(c);
    HighBytesLow2(c);
    LowClear4(h);
    LowClear4(Half(Half(Half(Half(h)))));
    ShrUnfold4(h);
    LowClearAdd(h, 4, 4);
  }

  /** Eight shifts of a register are one table lookup for its low byte and one shift by eight. */
  lemma StepsByTable(c: bv32)
    ensures Steps(c, 8) == Xor32(Steps(LowByte(c), 8), DropByte(c))
  {
    hide Steps, Shr, LowClear, Xor32, DropByte, LowByte, HighBytes;
    SplitLowByte(c);
    HighBytesClear(c);
    StepsHigh(LowByte(c), HighBytes(c), 8);
    ShrByte(HighBytes(c));
  }

  function TableEntry(b: byte): bv32 {
    Steps(Word(b), 8)
  }

  ghost predicate IsTable(table: seq<bv32>) {
    |table| == 256 && forall b: byte {:trigger TableEntry(b)} :: table[b as int] == TableEntry(b)
  }

  method TableEntryByLoop(n: byte) returns (c: bv32)
    ensures c == TableEntry(n)
  {
    hide Step, Word;
    c := Word(n);
    for k := 0 to 8
      invariant Steps(c, 8 - k) == TableEntry(n)
    {
      c := Step(c);
    }
  }

  method FillTable() returns (table: array<bv32>)
    ensures fresh(table) && IsTable(table[..])
  {
    hide TableEntry;
    table := new bv32[256];
    for n := 0 to 256
      invariant forall b: byte {:trigger TableEntry(b)} :: b as int < n ==> table[b as int] == TableEntry(b)
    {
      var c := TableEntryByLoop(n as byte);
      table[n] := c;
    }
  }

  /** One iteration of the checksum loop advances the register by one byte. */
  lemma TableStep(table: seq<bv32>, crc: bv32, b: byte)
    requires IsTable(table)
    ensures Xor32(table[Index(Xor32(crc, Word(b))) as int], DropByte(crc)) == Steps(Xor32(crc, Word(b)), 8)
  {
    hide Steps, Xor32, DropByte, LowByte, Word, Index;
    var x := Xor32(crc, Word(b));
    WordIndex(x);
    StepsByTable(x);
    DropByteXorByte(crc, b);
    assert TableEntry(Index(x)) == Steps(LowByte(x), 8);
  }

  lemma RegisterSnoc(bytes: seq<byte>, i: nat)
    requires i < |bytes|
    ensures Register(bytes[..i + 1]) == Steps(Xor32(Register(bytes[..i]), Word(bytes[i])), 8)
  {
    hide Steps, Xor32, Word;
    assert bytes[..i + 1][..i] == bytes[..i];
  }

  /** The checksum as the writer computes it: one lookup and one shift for every byte. */
  method ComputeCrc32(table: array<bv32>, bytes: seq<byte>) returns (crc: bv32)
    requires IsTable(table[..])
    ensures crc == Crc(bytes)
  {
    hide Steps, Xor32, Word, Index, DropByte;
    crc := ONES;
    for i := 0 to |bytes|
      invariant crc == Register(bytes[..i])
    {
      TableStep(table[..], crc, bytes[i]);
      RegisterSnoc(bytes, i);
      crc := Xor32(table[Index(Xor32(crc, Word(bytes[i]))) as int], DropByte(crc));
    }
    assert bytes[..|bytes|] == bytes;
    crc := Xor32(crc, ONES);
  }

  // ---------------------------------------------------------------------------------------
  // Long division of polynomials over GF(2)
  // ---------------------------------------------------------------------------------------

  /** The exponents of the generator polynomial below its leading one, 32. */
  predicate InGenerator(e: int) {
    e in {26, 23, 22, 16, 12, 11, 10, 8, 7, 5, 4, 2, 1, 0}
  }

  /** The generator without its leading term, highest power first. */
  function Generator(): (g: seq<bool>)
    ensures |g| == 32
  {
    seq(32, i => InGenerator(31 - i))
  }

  function Xor(a: seq<bool>, b: seq<bool>): (r: seq<bool>)
    requires |a| == |b|
    ensures |r| == |a|
  {
    seq(|a|, i requires 0 <= i < |a| => a[i] != b[i])
  }

  function Not(a: seq<bool>): seq<bool> {
    seq(|a|, i requires 0 <= i < |a| => !a[i])
  }

  function Repeat(b: bool, n: nat): (r: seq<bool>)
    ensures |r| == n
  {
    seq(n, i => b)
  }

  /** `m`, highest power first, modulo the generator: while the degree is 32 or more, the leading
      term is cancelled by a multiple of the generator. */
  function Remainder(m: seq<bool>): (r: seq<bool>)
    requires |m| >= 32
    ensures |r| == 32
    decreases |m|
  {
    if |m| == 32 then m
    else if m[0] then Remainder(AddFront(Generator(), m[1..]))
    else Remainder(m[1..])
  }

  /** The bits of a word, lowest first. */
  function Bits(c: bv32, n: nat): (r: seq<bool>)
    ensures |r| == n
    decreases n
  {
    if n == 0 then [] else [LowBit(c)] + Bits(Half(c), n - 1)
  }

  /** All bits of a message: the bytes in order, each lowest bit first. */
  function MessageBits(bytes: seq<byte>): (r: seq<bool>) {
    if bytes == [] then []
    else MessageBits(bytes[..|bytes| - 1]) + Bits(Word(bytes[|bytes| - 1]), 8)
  }

  /** `r` added to the 32 leading terms of `m`. */
  function AddFront(r: seq<bool>, m: seq<bool>): (s: seq<bool>)
    requires |r| == 32 <= |m|
    ensures |s| == |m|
  {
    Xor(r, m[..32]) + m[32..]
  }

  /** RFC 1952 section 8: the message, with its first 32 bits complemented and multiplied by x^32,
      is divided by the generator; the remainder is complemented. */
  function PolynomialCrc(bytes: seq<byte>): seq<bool> {
    Not(Remainder(AddFront(Repeat(true, 32), MessageBits(bytes) + Repeat(false, 32))))
  }

  // ---------------------------------------------------------------------------------------
  // The register does the division
  // ---------------------------------------------------------------------------------------

  /** One message bit goes into the register. */
  function Shift(r: seq<bool>, b: bool): (s: seq<bool>)
    requires |r| == 32
    ensures |s| == 32
  {
    if r[0] != b then Xor(r[1..] + [false], Generator()) else r[1..] + [false]
  }

  function ShiftAll(r: seq<bool>, m: seq<bool>): (s: seq<bool>)
    requires |r| == 32
    ensures |s| == 32
    decreases |m|
  {
    if m == [] then r else ShiftAll(Shift(r, m[0]), m[1..])
  }

  lemma AddFrontDropsTop(r: seq<bool>, w: seq<bool>)
    requires |r| == 32 < |w|
    ensures AddFront(r, w)[1..] == AddFront(r[1..] + [false], w[1..])
  {
  }

  lemma AddFrontTwice(g: seq<bool>, s: seq<bool>, w: seq<bool>)
    requires |g| == |s| == 32 <= |w|
    ensures AddFront(g, AddFront(s, w)) == AddFront(Xor(s, g), w)
  {
  }

  lemma RemainderStep(r: seq<bool>, m: seq<bool>)
    requires |r| == 32 && m != []
    ensures Remainder(AddFront(r, m + Repeat(false, 32)))
         == Remainder(AddFront(Shift(r, m[0]), m[1..] + Repeat(false, 32)))
  {
    hide Generator, Repeat;
    var w := m + Repeat(false, 32);
    assert w[1..] == m[1..] + Repeat(false, 32) && w[0] == m[0];
    AddFrontDropsTop(r, w);
    AddFrontTwice(Generator(), r[1..] + [false], w[1..]);
  }

  /** Shifting a message into a register computes the remainder of the message with the register
      added in front. */
  lemma {:induction false} ShiftAllIsRemainder(r: seq<bool>, m: seq<bool>)
    requires |r| == 32
    ensures ShiftAll(r, m) == Remainder(AddFront(r, m + Repeat(false, 32)))
    decreases |m|
  {
    if m == [] {
      assert AddFront(r, m + Repeat(false, 32)) == r;
    } else {
      ShiftAllIsRemainder(Shift(r, m[0]), m[1..]);
      RemainderStep(r, m);
    }
  }

  lemma {:induction false} ShiftAllAppend(r: seq<bool>, m: seq<bool>, n: seq<bool>)
    requires |r| == 32
    ensures ShiftAll(r, m + n) == ShiftAll(ShiftAll(r, m), n)
    decreases |m|
  {
    if m == [] {
      assert m + n == n;
    } else {
      ShiftAllAppend(Shift(r, m[0]), m[1..], n);
      assert (m + n)[1..] == m[1..] + n;
    }
  }

  // ---------------------------------------------------------------------------------------
  // Words and bit sequences
  // ---------------------------------------------------------------------------------------

  lemma {:induction false} BitsXor(a: bv32, b: bv32, n: nat)
    ensures Bits(Xor32(a, b), n) == Xor(Bits(a, n), Bits(b, n))
    decreases n
  {
    hide Xor32, Half, LowBit;
    if n > 0 {
      BitsXor(Half(a), Half(b), n - 1);
      HalfXor(a, b);
    }
  }

  lemma {:induction false} BitsSnoc(c: bv32, n: nat)
    ensures Bits(c, n + 1) == Bits(c, n) + [LowBit(Shr(c, n))]
    decreases n
  {
    hide Half, LowBit;
    if n > 0 {
      BitsSnoc(Half(c), n - 1);
    } else {
      assert Bits(Half(c), 0) == [];
    }
  }

  lemma ShrWord(c: bv32)
    ensures Shr(c, 32) == 0
  {
    hide Shr, DropByte;
    ShrByte(c);
    ShrByte(DropByte(c));
    ShrByte(DropByte(DropByte(c)));
    ShrByte(DropByte(DropByte(DropByte(c))));
    ShrAdd(c, 8, 8);
    ShrAdd(c, 16, 8);
    ShrAdd(c, 24, 8);
    FourBytes(c);
  }

  lemma BitsHalf(c: bv32)
    ensures Bits(Half(c), 32) == Bits(c, 32)[1..] + [false]
  {
    hide Half, LowBit;
    BitsSnoc(Half(c), 31);
    ShrWord(c);
    assert Shr(c, 32) == Shr(Half(c), 31);
    XorZero(c);
    assert Bits(c, 32) == [LowBit(c)] + Bits(Half(c), 31);
  }

  // ---------------------------------------------------------------------------------------
  // The constants, read bit by bit
  // ---------------------------------------------------------------------------------------

  function DropNibble(c: bv32): bv32 {
    c >> 4
  }

  lemma FourHalves(c: bv32)
    ensures Half(Half(Half(Half(c)))) == DropNibble(c)
  {
  }

  lemma TwoBits(c: bv32, n: nat)
    ensures Bits(c, n + 2) == [LowBit(c), LowBit(Half(c))] + Bits(Half(Half(c)), n)
  {
    hide Half, LowBit;
    assert Bits(Half(c), n + 1) == [LowBit(Half(c))] + Bits(Half(Half(c)), n);
    assert Bits(c, n + 2) == [LowBit(c)] + Bits(Half(c), n + 1);
  }

  lemma NibbleBits(c: bv32, n: nat)
    ensures Bits(c, n + 4)
         == [LowBit(c), LowBit(Half(c)), LowBit(Half(Half(c))), LowBit(Half(Half(Half(c))))] + Bits(DropNibble(c), n)
  {
    hide Half, LowBit, DropNibble, Bits;
    FourHalves(c);
    TwoBits(c, n + 2);
    TwoBits(Half(Half(c)), n);
  }

  function Nibble(c: bv32): seq<bool> {
    [LowBit(c), LowBit(Half(c)), LowBit(Half(Half(c))), LowBit(Half(Half(Half(c))))]
  }

  /** The bits of a constant, read four at a time. */
  lemma NibbleOf(c: bv32, rest: bv32, n: nat, bits: seq<bool>)
    requires Nibble(c) == bits && DropNibble(c) == rest
    ensures Bits(c, n + 4) == bits + Bits(rest, n)
  {
    hide Half, LowBit, DropNibble, Bits;
    NibbleBits(c, n);
  }

  lemma NoBits()
    ensures Bits(0, 0) == []
  {
  }

  lemma PolyNibbles()
    ensures Nibble(0xedb88320) == [false, false, false, false] && DropNibble(0xedb88320) == 0xedb8832
    ensures Nibble(0xedb8832) == [false, true, false, false] && DropNibble(0xedb8832) == 0xedb883
    ensures Nibble(0xedb883) == [true, true, false, false] && DropNibble(0xedb883) == 0xedb88
    ensures Nibble(0xedb88) == [false, false, false, true] && DropNibble(0xedb88) == 0xedb8
    ensures Nibble(0xedb8) == [false, false, false, true] && DropNibble(0xedb8) == 0xedb
    ensures Nibble(0xedb) == [true, true, false, true] && DropNibble(0xedb) == 0xed
    ensures Nibble(0xed) == [true, false, true, true] && DropNibble(0xed) == 0xe
    ensures Nibble(0xe) == [false, true, true, true] && DropNibble(0xe) == 0x0
  {
  }

  lemma GeneratorBits()
    ensures Generator() == [
      false, false, false, false, false, true, false, false,
      true, true, false, false, false, false, false, true,
      false, false, false, true, true, true, false, true,
      true, false, true, true, false, true, true, true]
  {
  }

  lemma PolyLowBits()
    ensures Bits(POLY, 32) == [false, false, false, false, false, true, false, false]
                              + [true, true, false, false, false, false, false, true] + Bits(0xedb8, 16)
  {
    hide Nibble, DropNibble, Half, LowBit, Bits;
    PolyNibbles();
    NibbleOf(0xedb88320, 0xedb8832, 28, [false, false, false, false]);
    NibbleOf(0xedb8832, 0xedb883, 24, [false, true, false, false]);
    NibbleOf(0xedb883, 0xedb88, 20, [true, true, false, false]);
    NibbleOf(0xedb88, 0xedb8, 16, [false, false, false, true]);
  }

  lemma PolyHighBits()
    ensures Bits(0xedb8, 16) == [false, false, false, true, true, true, false, true]
                                + [true, false, true, true, false, true, true, true]
  {
    hide Nibble, DropNibble, Half, LowBit, Bits;
    PolyNibbles();
    NibbleOf(0xedb8, 0xedb, 12, [false, false, false, true]);
    NibbleOf(0xedb, 0xed, 8, [true, true, false, true]);
    NibbleOf(0xed, 0xe, 4, [true, false, true, true]);
    NibbleOf(0xe, 0x0, 0, [false, true, true, true]);
    NoBits();
  }

  /** The constant in the code is the generator of RFC 1952 with its bits in reverse. */
  lemma BitsOfPoly()
    ensures Bits(POLY, 32) == Generator()
  {
    hide Bits, Generator;
    GeneratorBits();
    PolyLowBits();
    PolyHighBits();
  }

  lemma OnesNibbles()
    ensures Nibble(0xffffffff) == [true, true, true, true] && DropNibble(0xffffffff) == 0xfffffff
    ensures Nibble(0xfffffff) == [true, true, true, true] && DropNibble(0xfffffff) == 0xffffff
    ensures Nibble(0xffffff) == [true, true, true, true] && DropNibble(0xffffff) == 0xfffff
    ensures Nibble(0xfffff) == [true, true, true, true] && DropNibble(0xfffff) == 0xffff
    ensures Nibble(0xffff) == [true, true, true, true] && DropNibble(0xffff) == 0xfff
    ensures Nibble(0xfff) == [true, true, true, true] && DropNibble(0xfff) == 0xff
    ensures Nibble(0xff) == [true, true, true, true] && DropNibble(0xff) == 0xf
    ensures Nibble(0xf) == [true, true, true, true] && DropNibble(0xf) == 0x0
  {
  }

  lemma BitsOfOnes()
    ensures Bits(ONES, 32) == Repeat(true, 32)
  {
    hide Nibble, DropNibble, Half, LowBit, Bits;
    OnesNibbles();
    NibbleOf(0xffffffff, 0xfffffff, 28, [true, true, true, true]);
    NibbleOf(0xfffffff, 0xffffff, 24, [true, true, true, true]);
    NibbleOf(0xffffff, 0xfffff, 20, [true, true, true, true]);
    NibbleOf(0xfffff, 0xffff, 16, [true, true, true, true]);
    NibbleOf(0xffff, 0xfff, 12, [true, true, true, true]);
    NibbleOf(0xfff, 0xff, 8, [true, true, true, true]);
    NibbleOf(0xff, 0xf, 4, [true, true, true, true]);
    NibbleOf(0xf, 0x0, 0, [true, true, true, true]);
    NoBits();
  }

  // ---------------------------------------------------------------------------------------
  // A byte at a time is a bit at a time
  // ---------------------------------------------------------------------------------------

  function OneIf(b: bool): bv32 {
    if b then 1 else 0
  }

  function HighPart(y: bv32): bv32 {
    y & 0xfffffffe
  }

  lemma SplitLowBit(y: bv32)
    ensures Xor32(OneIf(LowBit(y)), HighPart(y)) == y
    ensures !LowBit(HighPart(y)) && Half(HighPart(y)) == Half(y)
  {
  }

  lemma OneIfBits(b: bool)
    ensures LowBit(OneIf(b)) == b && Half(OneIf(b)) == 0
  {
  }

  /** One message bit is added to the register, which then shifts. */
  function FeedBit(c: bv32, b: bool): bv32 {
    Step(Xor32(c, OneIf(b)))
  }

  function Feed(c: bv32, m: seq<bool>): bv32
    decreases |m|
  {
    if m == [] then c else Feed(FeedBit(c, m[0]), m[1..])
  }

  lemma OneBit(c: bv32, y: bv32)
    ensures Step(Xor32(c, y)) == Xor32(FeedBit(c, LowBit(y)), Half(y))
  {
    hide Step, Xor32, Half, LowBit, OneIf, HighPart;
    SplitLowBit(y);
    XorAssoc(c, OneIf(LowBit(y)), HighPart(y));
    StepHigh(Xor32(c, OneIf(LowBit(y))), HighPart(y));
  }

  lemma {:induction false} StepsAreFeeds(c: bv32, y: bv32, k: nat)
    ensures Steps(Xor32(c, y), k) == Xor32(Feed(c, Bits(y, k)), Shr(y, k))
    decreases k
  {
    hide Step, Xor32, Half, LowBit, FeedBit;
    if k > 0 {
      OneBit(c, y);
      StepsAreFeeds(FeedBit(c, LowBit(y)), Half(y), k - 1);
      assert Bits(y, k)[1..] == Bits(Half(y), k - 1);
    }
  }

  lemma ByteIsFed(c: bv32, b: byte)
    ensures Steps(Xor32(c, Word(b)), 8) == Feed(c, Bits(Word(b), 8))
  {
    hide Steps, Xor32, Feed, Bits, Shr, Word, DropByte;
    StepsAreFeeds(c, Word(b), 8);
    ShrByte(Word(b));
    DropByteOfWord(b);
    XorZero(Feed(c, Bits(Word(b), 8)));
  }

  lemma XorCommutes(a: seq<bool>, b: seq<bool>)
    requires |a| == |b|
    ensures Xor(a, b) == Xor(b, a)
  {
  }

  lemma BitsOfFeedBit(c: bv32, b: bool)
    ensures Bits(FeedBit(c, b), 32) == Shift(Bits(c, 32), b)
  {
    hide Xor32, Half, LowBit, OneIf, Generator;
    HalfXor(c, OneIf(b));
    OneIfBits(b);
    XorZero(Half(c));
    BitsHalf(c);
    BitsXor(POLY, Half(c), 32);
    BitsOfPoly();
    XorCommutes(Generator(), Bits(Half(c), 32));
    assert Bits(c, 32)[0] == LowBit(c);
  }

  lemma {:induction false} BitsOfFeed(c: bv32, m: seq<bool>)
    ensures Bits(Feed(c, m), 32) == ShiftAll(Bits(c, 32), m)
    decreases |m|
  {
    hide FeedBit, Shift, Bits;
    if m != [] {
      BitsOfFeedBit(c, m[0]);
      BitsOfFeed(FeedBit(c, m[0]), m[1..]);
    }
  }

  lemma {:induction false} BitsOfRegister(bytes: seq<byte>)
    ensures Bits(Register(bytes), 32) == ShiftAll(Repeat(true, 32), MessageBits(bytes))
  {
    hide Bits, Steps, Xor32, Word, Feed;
    if bytes == [] {
      BitsOfOnes();
    } else {
      var init, last := bytes[..|bytes| - 1], bytes[|bytes| - 1];
      BitsOfRegister(init);
      ByteIsFed(Register(init), last);
      BitsOfFeed(Register(init), Bits(Word(last), 8));
      ShiftAllAppend(Repeat(true, 32), MessageBits(init), Bits(Word(last), 8));
    }
  }

  /** Main result: the checksum is the CRC of RFC 1952 section 8. */
  lemma CrcIsPolynomialRemainder(bytes: seq<byte>)
    ensures Bits(Crc(bytes), 32) == PolynomialCrc(bytes)
  {
    hide Bits, Register, Xor32, Remainder, MessageBits;
    BitsXor(Register(bytes), ONES, 32);
    BitsOfOnes();
    BitsOfRegister(bytes);
    ShiftAllIsRemainder(Repeat(true, 32), MessageBits(bytes));
    var r := Bits(Register(bytes), 32);
    assert Xor(r, Repeat(true, 32)) == Not(r);
  }
}
