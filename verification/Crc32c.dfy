/** CRC32C, a byte at a time and in four interleaved strides, and the masking of stored checksums.
    The bit-vector operations have names, so that the larger proofs can do without their bits. */
module Crc32c {
  import opened Format

  // ---------- Words ----------

  function Xor(a: bv32, b: bv32): bv32 { a ^ b }

  function Half(x: bv32): bv32 { x >> 1 }

  predicate Odd(x: bv32) { x & 1 == 1 }

  function Widen(b: bv8): bv32 { b as bv32 }

  function Bits(b: Byte): bv8 { b as bv8 }

  function ShiftDown(x: bv32): bv32 { x >> 8 }

  function ShiftUp(x: bv32): bv32 { x << 8 }

  function Byte0(x: bv32): bv8 { (x & 0xff) as bv8 }

  function Byte1(x: bv32): bv8 { ((x >> 8) & 0xff) as bv8 }

  function Byte2(x: bv32): bv8 { ((x >> 16) & 0xff) as bv8 }

  function Byte3(x: bv32): bv8 { (x >> 24) as bv8 }

  /** The word whose bytes these are, least significant first. */
  function Word(b0: bv8, b1: bv8, b2: bv8, b3: bv8): bv32 {
    (b0 as bv32) | ((b1 as bv32) << 8) | ((b2 as bv32) << 16) | ((b3 as bv32) << 24)
  }

  lemma {:induction false} XorAssociates(a: bv32, b: bv32, c: bv32)
    ensures Xor(Xor(a, b), c) == Xor(a, Xor(b, c))
  {
  }

  lemma {:induction false} XorCommutes(a: bv32, b: bv32)
    ensures Xor(a, b) == Xor(b, a)
  {
  }

  lemma {:induction false} XorCancels(a: bv32, b: bv32)
    ensures Xor(Xor(a, b), b) == a
  {
  }

  lemma {:induction false} XorZero(a: bv32)
    ensures Xor(a, 0) == a && Xor(0, a) == a
  {
  }

  lemma {:induction false} OddXor(a: bv32, b: bv32)
    ensures Odd(Xor(a, b)) <==> Odd(a) != Odd(b)
  {
  }

  lemma {:induction false} HalfXor(a: bv32, b: bv32)
    ensures Half(Xor(a, b)) == Xor(Half(a), Half(b))
  {
  }

  /** (a ^ b) ^ (c ^ d) == (a ^ c) ^ (b ^ d) */
  lemma {:induction false} XorMiddle(a: bv32, b: bv32, c: bv32, d: bv32)
    ensures Xor(Xor(a, b), Xor(c, d)) == Xor(Xor(a, c), Xor(b, d))
  {
    hide Xor;
    XorAssociates(a, b, Xor(c, d));
    XorAssociates(b, c, d);
    XorCommutes(b, c);
    XorAssociates(c, b, d);
    XorAssociates(a, c, Xor(b, d));
  }

  // ---------- The checksum, bit by bit ----------

  /** The Castagnoli polynomial, least significant bit first (section 12.1 of RFC 3720). */
  const POLYNOMIAL: bv32 := 0x82f63b78

  const ALL_ONES: bv32 := 0xffff_ffff

  function BitStep(x: bv32): bv32 {
    if Odd(x) then Xor(Half(x), POLYNOMIAL) else Half(x)
  }

  /** Advance a remainder past one zero byte. */
  function ByteStep(x: bv32): bv32 {
    BitStep(BitStep(BitStep(BitStep(BitStep(BitStep(BitStep(BitStep(x))))))))
  }

  /** The remainder after some bytes. */
  function Fold(l: bv32, data: Bytes): bv32 {
    if data == [] then l else ByteStep(Xor(Fold(l, data[..|data| - 1]), Widen(Bits(data[|data| - 1]))))
  }

  /** The checksum of A + data, where `crc` is that of A. */
  function Extended(crc: bv32, data: Bytes): bv32 {
    Xor(Fold(Xor(crc, ALL_ONES), data), ALL_ONES)
  }

  function Value(data: Bytes): bv32 {
    Extended(0, data)
  }

  lemma {:induction false} FoldConcat(l: bv32, a: Bytes, b: Bytes)
    ensures Fold(l, a + b) == Fold(Fold(l, a), b)
  {
    hide ByteStep, Xor, Widen, Bits;
    if b == [] {
      assert a + b == a;
    } else {
      assert (a + b)[..|a + b| - 1] == a + b[..|b| - 1];
      FoldConcat(l, a, b[..|b| - 1]);
    }
  }

  /** Extending a checksum is checksumming the longer string. */
  lemma {:induction false} ExtendComposes(crc: bv32, a: Bytes, b: Bytes)
    ensures Extended(Extended(crc, a), b) == Extended(crc, a + b)
  {
    hide ByteStep, Xor, Widen, Bits, Fold;
    XorCancels(Fold(Xor(crc, ALL_ONES), a), ALL_ONES);
    FoldConcat(Xor(crc, ALL_ONES), a, b);
  }

  // ---------- Linearity ----------

  lemma {:induction false} BitStepLinear(a: bv32, b: bv32)
    ensures BitStep(Xor(a, b)) == Xor(BitStep(a), BitStep(b))
  {
    hide Xor, Half, Odd, POLYNOMIAL;
    OddXor(a, b);
    HalfXor(a, b);
    var h, k := Half(a), Half(b);
    XorAssociates(h, k, POLYNOMIAL);
    XorAssociates(h, POLYNOMIAL, k);
    XorCommutes(POLYNOMIAL, k);
    XorMiddle(h, POLYNOMIAL, k, POLYNOMIAL);
    XorCancels(Xor(h, k), POLYNOMIAL);
    XorAssociates(Xor(h, k), POLYNOMIAL, POLYNOMIAL);
  }

  lemma {:induction false} ByteStepLinear(a: bv32, b: bv32)
    ensures ByteStep(Xor(a, b)) == Xor(ByteStep(a), ByteStep(b))
  {
    hide BitStep, Xor;
    BitStepLinear(a, b);
    var a1, b1 := BitStep(a), BitStep(b);
    BitStepLinear(a1, b1);
    var a2, b2 := BitStep(a1), BitStep(b1);
    BitStepLinear(a2, b2);
    var a3, b3 := BitStep(a2), BitStep(b2);
    BitStepLinear(a3, b3);
    var a4, b4 := BitStep(a3), BitStep(b3);
    BitStepLinear(a4, b4);
    var a5, b5 := BitStep(a4), BitStep(b4);
    BitStepLinear(a5, b5);
    var a6, b6 := BitStep(a5), BitStep(b5);
    BitStepLinear(a6, b6);
    BitStepLinear(BitStep(a6), BitStep(b6));
  }

  lemma {:induction false} ShiftedBytesStayWhole(x: bv32)
    requires Byte0(x) == 0
    ensures ByteStep(x) == ShiftDown(x)
  {
    hide Xor, POLYNOMIAL;
    assert BitStep(x) == x >> 1;
    assert BitStep(x >> 1) == x >> 2;
    assert BitStep(x >> 2) == x >> 3;
    assert BitStep(x >> 3) == x >> 4;
    assert BitStep(x >> 4) == x >> 5;
    assert BitStep(x >> 5) == x >> 6;
    assert BitStep(x >> 6) == x >> 7;
    assert BitStep(x >> 7) == x >> 8;
  }

  lemma {:induction false} LowAndHigh(x: bv32)
    ensures x == Xor(Widen(Byte0(x)), ShiftUp(ShiftDown(x)))
    ensures Byte0(ShiftUp(ShiftDown(x))) == 0 && ShiftDown(ShiftUp(ShiftDown(x))) == ShiftDown(x)
  {
  }

  /** Only the low byte goes through the polynomial; the others shift down. */
  lemma {:induction false} ByteStepSplits(x: bv32)
    ensures ByteStep(x) == Xor(ByteStep(Widen(Byte0(x))), ShiftDown(x))
  {
    hide ByteStep, Xor, ShiftUp, ShiftDown, Byte0, Widen;
    LowAndHigh(x);
    ByteStepLinear(Widen(Byte0(x)), ShiftUp(ShiftDown(x)));
    ShiftedBytesStayWhole(ShiftUp(ShiftDown(x)));
  }

  // ---------- Tables ----------

  /** The remainder of a byte, tabulated in the code. */
  function ByteExtension(b: bv8): bv32 {
    ByteStep(Widen(b))
  }

  /** Advance past four zero bytes, and past sixteen. */
  function FourSteps(x: bv32): bv32 {
    ByteStep(ByteStep(ByteStep(ByteStep(x))))
  }

  function StrideSteps(x: bv32): bv32 {
    FourSteps(FourSteps(FourSteps(FourSteps(x))))
  }

  /** The remainders of a byte at each place of a word, a stride of sixteen bytes later. */
  function StrideExtension3(b: bv8): bv32 { StrideSteps(Word(b, 0, 0, 0)) }

  function StrideExtension2(b: bv8): bv32 { StrideSteps(Word(0, b, 0, 0)) }

  function StrideExtension1(b: bv8): bv32 { StrideSteps(Word(0, 0, b, 0)) }

  function StrideExtension0(b: bv8): bv32 { StrideSteps(Word(0, 0, 0, b)) }

  /** The rows of the first table in the code for single bits; the others follow, as a byte step is
      linear. */
  lemma {:induction false} KnownRows()
    ensures ByteExtension(1) == 0xf26b_8303 && ByteExtension(2) == 0xe13b_70f7
    ensures ByteExtension(4) == 0xc79a_971f && ByteExtension(8) == 0x8ad9_58cf
    ensures ByteExtension(16) == 0x105e_c76f && ByteExtension(32) == 0x20bd_8ede
    ensures ByteExtension(64) == 0x417b_1dbc && ByteExtension(128) == 0x82f6_3b78
  {
  }

  /** The first rows of the other tables. */
  lemma {:induction false} KnownStrides()
    ensures StrideExtension3(1) == 0xf20c_0dfe && StrideExtension2(1) == 0x678e_fd01
    ensures StrideExtension1(1) == 0x5407_5546 && StrideExtension0(1) == 0x30d2_3865
  {
    assert FourSteps(0x1) == 0xdd45_aab8 && FourSteps(0x100) == 0xa541_927e && FourSteps(0x1_0000) == 0x13a2_9877
        && FourSteps(0x100_0000) == 0xf26b_8303;
    assert FourSteps(0xdd45_aab8) == 0x493c_7d27 && FourSteps(0xa541_927e) == 0x6803_2cc8
        && FourSteps(0x13a2_9877) == 0xef30_6b19 && FourSteps(0xf26b_8303) == 0x3811_6fac;
    assert FourSteps(0x493c_7d27) == 0x3171_d430 && FourSteps(0x6803_2cc8) == 0x9771_f7c1
        && FourSteps(0xef30_6b19) == 0xcb56_7ba5 && FourSteps(0x3811_6fac) == 0xf43e_d648;
    assert FourSteps(0x3171_d430) == 0xf20c_0dfe && FourSteps(0x9771_f7c1) == 0x678e_fd01
        && FourSteps(0xcb56_7ba5) == 0x5407_5546 && FourSteps(0xf43e_d648) == 0x30d2_3865;
  }

  lemma {:induction false} FourStepsLinear(a: bv32, b: bv32)
    ensures FourSteps(Xor(a, b)) == Xor(FourSteps(a), FourSteps(b))
  {
    hide ByteStep, Xor;
    ByteStepLinear(a, b);
    var a1, b1 := ByteStep(a), ByteStep(b);
    ByteStepLinear(a1, b1);
    var a2, b2 := ByteStep(a1), ByteStep(b1);
    ByteStepLinear(a2, b2);
    ByteStepLinear(ByteStep(a2), ByteStep(b2));
  }

  lemma {:induction false} StrideStepsLinear(a: bv32, b: bv32)
    ensures StrideSteps(Xor(a, b)) == Xor(StrideSteps(a), StrideSteps(b))
  {
    hide FourSteps, Xor;
    FourStepsLinear(a, b);
    var a1, b1 := FourSteps(a), FourSteps(b);
    FourStepsLinear(a1, b1);
    var a2, b2 := FourSteps(a1), FourSteps(b1);
    FourStepsLinear(a2, b2);
    FourStepsLinear(FourSteps(a2), FourSteps(b2));
  }

  lemma {:induction false} WordOfBytes(x: bv32)
    ensures x == Xor(Xor(Xor(Word(Byte0(x), 0, 0, 0), Word(0, Byte1(x), 0, 0)), Word(0, 0, Byte2(x), 0)),
        Word(0, 0, 0, Byte3(x)))
  {
  }

  /** Four table lookups advance a word by a stride. */
  lemma {:induction false} TablesAdvanceStride(x: bv32)
    ensures Xor(Xor(Xor(StrideExtension3(Byte0(x)), StrideExtension2(Byte1(x))), StrideExtension1(Byte2(x))),
        StrideExtension0(Byte3(x)))
         == StrideSteps(x)
  {
    hide StrideSteps, Xor, Word, Byte0, Byte1, Byte2, Byte3;
    WordOfBytes(x);
    var a, b, c, d := Word(Byte0(x), 0, 0, 0), Word(0, Byte1(x), 0, 0), Word(0, 0, Byte2(x), 0),
        Word(0, 0, 0, Byte3(x));
    StrideStepsLinear(a, b);
    StrideStepsLinear(Xor(a, b), c);
    StrideStepsLinear(Xor(Xor(a, b), c), d);
  }

  lemma {:induction false} FirstByteOfWord(l: bv32, b: bv8)
    ensures Byte0(Xor(l, Widen(b))) == Byte0(l) ^ b
    ensures ShiftDown(Xor(l, Widen(b))) == ShiftDown(l)
  {
  }

  /** One table lookup takes in a byte. */
  lemma {:induction false} TableTakesByte(l: bv32, b: bv8)
    ensures Xor(ByteExtension(Byte0(l) ^ b), ShiftDown(l)) == ByteStep(Xor(l, Widen(b)))
  {
    var c := Byte0(l) ^ b;
    hide Xor, ByteStep, Widen, ShiftDown, Byte0;
    FirstByteOfWord(l, b);
    ByteStepSplits(Xor(l, Widen(b)));
  }

  lemma {:induction false} WordBytewise(b0: bv8, b1: bv8, b2: bv8, b3: bv8)
    ensures Word(b0, b1, b2, b3) == Xor(Widen(b0), Word(0, b1, b2, b3))
    ensures Byte0(Word(0, b1, b2, b3)) == 0 && ShiftDown(Word(0, b1, b2, b3)) == Word(b1, b2, b3, 0)
    ensures Word(0, 0, 0, 0) == 0
  {
  }

  /** Taking in the low byte of a word leaves the other three to be taken in. */
  lemma {:induction false} ByteStepOfWord(l: bv32, b0: bv8, b1: bv8, b2: bv8, b3: bv8)
    ensures ByteStep(Xor(l, Word(b0, b1, b2, b3))) == Xor(ByteStep(Xor(l, Widen(b0))), Word(b1, b2, b3, 0))
  {
    hide ByteStep, Xor, ShiftDown, Byte0, Widen, Word;
    WordBytewise(b0, b1, b2, b3);
    XorAssociates(l, Widen(b0), Word(0, b1, b2, b3));
    ByteStepLinear(Xor(l, Widen(b0)), Word(0, b1, b2, b3));
    ShiftedBytesStayWhole(Word(0, b1, b2, b3));
  }

  lemma {:induction false} FoldByte(l: bv32, b: Byte)
    ensures Fold(l, [b]) == ByteStep(Xor(l, Widen(Bits(b))))
  {
    hide ByteStep, Xor, Widen, Bits;
    assert Fold(l, [b][..0]) == l;
  }

  /** Taking in a word at once is taking in its bytes. */
  lemma {:induction false} FoldWord(l: bv32, b0: Byte, b1: Byte, b2: Byte, b3: Byte)
    ensures Fold(l, [b0, b1, b2, b3]) == FourSteps(Xor(l, Word(Bits(b0), Bits(b1), Bits(b2), Bits(b3))))
  {
    hide ByteStep, Xor, Widen, Word, Fold, Bits;
    FoldByte(l, b0);
    var l1 := Fold(l, [b0]);
    FoldByte(l1, b1);
    var l2 := Fold(l1, [b1]);
    FoldByte(l2, b2);
    var l3 := Fold(l2, [b2]);
    FoldByte(l3, b3);
    FoldConcat(l, [b0], [b1]);
    FoldConcat(l, [b0] + [b1], [b2]);
    FoldConcat(l, [b0] + [b1] + [b2], [b3]);
    assert [b0, b1, b2, b3] == [b0] + [b1] + [b2] + [b3];
    ByteStepOfWord(l, Bits(b0), Bits(b1), Bits(b2), Bits(b3));
    ByteStepOfWord(l1, Bits(b1), Bits(b2), Bits(b3), 0);
    ByteStepOfWord(l2, Bits(b2), Bits(b3), 0, 0);
    ByteStepOfWord(l3, Bits(b3), 0, 0, 0);
    WordBytewise(0, 0, 0, 0);
    XorZero(ByteStep(Xor(l3, Widen(Bits(b3)))));
  }

  // ---------- Four strides ----------

  /** The remainder that four partial remainders stand for. */
  function Combined(c0: bv32, c1: bv32, c2: bv32, c3: bv32): bv32 {
    FourSteps(Xor(FourSteps(Xor(FourSteps(Xor(FourSteps(c0), c1)), c2)), c3))
  }

  /** Advancing the oldest partial remainder by a stride and putting it last, with a new word, takes
      in that word. */
  lemma {:induction false} StridesRotate(c0: bv32, c1: bv32, c2: bv32, c3: bv32, w: bv32)
    ensures Combined(c1, c2, c3, Xor(w, StrideSteps(c0))) == FourSteps(Xor(Combined(c0, c1, c2, c3), w))
  {
    hide Xor, FourSteps;
    var z1 := FourSteps(c0);
    var z2 := FourSteps(z1);
    var z3 := FourSteps(z2);
    var z4 := FourSteps(z3);
    FourStepsLinear(z1, c1);
    var a1 := FourSteps(c1);
    XorAssociates(z2, a1, c2);
    FourStepsLinear(z2, Xor(a1, c2));
    var a2 := FourSteps(Xor(a1, c2));
    XorAssociates(z3, a2, c3);
    FourStepsLinear(z3, Xor(a2, c3));
    var a3 := FourSteps(Xor(a2, c3));
    XorCommutes(z4, a3);
    XorAssociates(a3, z4, w);
    XorCommutes(z4, w);
  }

  function WordAt(data: Bytes, p: nat): bv32
    requires p + 4 <= |data|
  {
    Word(Bits(data[p]), Bits(data[p + 1]), Bits(data[p + 2]), Bits(data[p + 3]))
  }

  lemma {:induction false} FoldNextByte(l: bv32, data: Bytes, p: nat)
    requires p < |data|
    ensures Fold(l, data[..p + 1])
        == Xor(ByteExtension(Byte0(Fold(l, data[..p])) ^ Bits(data[p])), ShiftDown(Fold(l, data[..p])))
  {
    hide Xor, ByteExtension, ByteStep, ShiftDown, Byte0, Widen, Bits;
    assert data[..p + 1][..p] == data[..p];
    TableTakesByte(Fold(l, data[..p]), Bits(data[p]));
  }

  lemma {:induction false} FoldNextWord(l: bv32, data: Bytes, p: nat)
    requires p + 4 <= |data|
    ensures Fold(l, data[..p + 4]) == FourSteps(Xor(Fold(l, data[..p]), WordAt(data, p)))
  {
    hide Xor, FourSteps, Word, Fold, Bits;
    assert data[..p + 4] == data[..p] + [data[p], data[p + 1], data[p + 2], data[p + 3]];
    FoldConcat(l, data[..p], [data[p], data[p + 1], data[p + 2], data[p + 3]]);
    FoldWord(Fold(l, data[..p]), data[p], data[p + 1], data[p + 2], data[p + 3]);
  }

  /** The first four words become the four partial remainders. */
  lemma {:induction false} StridesStart(l: bv32, data: Bytes, p: nat)
    requires p + 16 <= |data|
    ensures Fold(l, data[..p + 16])
         == Combined(Xor(WordAt(data, p), Fold(l, data[..p])), WordAt(data, p + 4), WordAt(data, p + 8),
             WordAt(data, p + 12))
  {
    hide Xor, FourSteps, WordAt, Fold;
    XorCommutes(WordAt(data, p), Fold(l, data[..p]));
    FoldNextWord(l, data, p);
    FoldNextWord(l, data, p + 4);
    FoldNextWord(l, data, p + 8);
    FoldNextWord(l, data, p + 12);
  }

  /** Four words, one for each stride. */
  lemma {:induction false} StridesAdvance(l: bv32, data: Bytes, p: nat, c0: bv32, c1: bv32, c2: bv32, c3: bv32)
    requires p + 16 <= |data| && Fold(l, data[..p]) == Combined(c0, c1, c2, c3)
    ensures Fold(l, data[..p + 16])
         == Combined(Xor(WordAt(data, p), StrideSteps(c0)), Xor(WordAt(data, p + 4), StrideSteps(c1)),
                     Xor(WordAt(data, p + 8), StrideSteps(c2)), Xor(WordAt(data, p + 12), StrideSteps(c3)))
  {
    hide Xor, FourSteps, WordAt, Fold, Combined, StrideSteps;
    var d0, d1, d2, d3 := Xor(WordAt(data, p), StrideSteps(c0)), Xor(WordAt(data, p + 4), StrideSteps(c1)),
                          Xor(WordAt(data, p + 8), StrideSteps(c2)), Xor(WordAt(data, p + 12), StrideSteps(c3));
    FoldNextWord(l, data, p);
    StridesRotate(c0, c1, c2, c3, WordAt(data, p));
    FoldNextWord(l, data, p + 4);
    StridesRotate(c1, c2, c3, d0, WordAt(data, p + 4));
    FoldNextWord(l, data, p + 8);
    StridesRotate(c2, c3, d0, d1, WordAt(data, p + 8));
    FoldNextWord(l, data, p + 12);
    StridesRotate(c3, d0, d1, d2, WordAt(data, p + 12));
  }

  /** One word of one stride, by table. */
  method Step4(c: bv32, w: bv32) returns (r: bv32)
    ensures r == Xor(w, StrideSteps(c))
  {
    hide Xor, StrideExtension0, StrideExtension1, StrideExtension2, StrideExtension3, Byte0, Byte1, Byte2, Byte3,
        StrideSteps;
    r := Xor(Xor(Xor(Xor(w, StrideExtension3(Byte0(c))), StrideExtension2(Byte1(c))), StrideExtension1(Byte2(c))),
        StrideExtension0(Byte3(c)));
    TablesAdvanceStride(c);
    var a, b, d, e := StrideExtension3(Byte0(c)), StrideExtension2(Byte1(c)), StrideExtension1(Byte2(c)),
        StrideExtension0(Byte3(c));
    XorAssociates(w, a, b);
    XorAssociates(w, Xor(a, b), d);
    XorAssociates(w, Xor(Xor(a, b), d), e);
  }

  /** Put a partial remainder behind what has been combined so far. */
  method Step4W(l: bv32, w: bv32) returns (r: bv32)
    ensures r == FourSteps(Xor(w, l))
  {
    hide Xor, ByteStep, Byte0, ShiftDown, Widen;
    r := Xor(w, l);
    ghost var x := r;
    var i := 0;
    while i < 4
      invariant 0 <= i <= 4
      invariant r == if i == 0 then x else if i == 1 then ByteStep(x) else if i == 2 then ByteStep(ByteStep(x))
                     else if i == 3 then ByteStep(ByteStep(ByteStep(x))) else FourSteps(x)
    {
      ByteStepSplits(r);
      XorCommutes(ShiftDown(r), ByteExtension(Byte0(r)));
      r := Xor(ShiftDown(r), ByteExtension(Byte0(r)));
      i := i + 1;
    }
  }

  method CombineStrides(c0: bv32, c1: bv32, c2: bv32, c3: bv32) returns (l: bv32)
    ensures l == Combined(c0, c1, c2, c3)
  {
    hide Xor, FourSteps;
    l := Step4W(0, c0);
    XorZero(c0);
    XorCommutes(c1, l);
    l := Step4W(l, c1);
    XorCommutes(c2, l);
    l := Step4W(l, c2);
    XorCommutes(c3, l);
    l := Step4W(l, c3);
  }

  /** Extend a checksum over data that starts at some address: bytes up to a word boundary, then
      sixteen bytes at a time, then words, then the last bytes. */
  method Extend(crc: bv32, data: Bytes, address: nat) returns (r: bv32)
    ensures r == Extended(crc, data)
  {
    hide Xor, Fold, StrideSteps, WordAt, Combined, ByteExtension, Byte0, ShiftDown, FourSteps, Bits;
    var p, e, l := 0, |data|, Xor(crc, ALL_ONES);
    ghost var start := l;
    FoldNothing(start);
    assert data[..0] == [];
    var aligned := (4 - address % 4) % 4;
    if aligned <= e {
      while p != aligned
        invariant 0 <= p <= aligned && l == Fold(start, data[..p])
        decreases aligned - p
      {
        FoldNextByte(start, data, p);
        l := Xor(ByteExtension(Byte0(l) ^ Bits(data[p])), ShiftDown(l));
        p := p + 1;
      }
    }
    if e - p >= 16 {
      var crc0 := Xor(WordAt(data, p), l);
      var crc1, crc2, crc3 := WordAt(data, p + 4), WordAt(data, p + 8), WordAt(data, p + 12);
      StridesStart(start, data, p);
      p := p + 16;
      while e - p >= 16
        invariant 0 <= p <= e && Fold(start, data[..p]) == Combined(crc0, crc1, crc2, crc3)
      {
        StridesAdvance(start, data, p, crc0, crc1, crc2, crc3);
        crc0 := Step4(crc0, WordAt(data, p));
        crc1 := Step4(crc1, WordAt(data, p + 4));
        crc2 := Step4(crc2, WordAt(data, p + 8));
        crc3 := Step4(crc3, WordAt(data, p + 12));
        p := p + 16;
      }
      while e - p >= 4
        invariant 0 <= p <= e && Fold(start, data[..p]) == Combined(crc0, crc1, crc2, crc3)
      {
        FoldNextWord(start, data, p);
        StridesRotate(crc0, crc1, crc2, crc3, WordAt(data, p));
        crc0 := Step4(crc0, WordAt(data, p));
        crc0, crc1, crc2, crc3 := crc1, crc2, crc3, crc0;
        p := p + 4;
      }
      l := CombineStrides(crc0, crc1, crc2, crc3);
    }
    while p != e
      invariant 0 <= p <= e && l == Fold(start, data[..p])
      decreases e - p
    {
      FoldNextByte(start, data, p);
      l := Xor(ByteExtension(Byte0(l) ^ Bits(data[p])), ShiftDown(l));
      p := p + 1;
    }
    assert data[..e] == data;
    r := Xor(l, ALL_ONES);
  }

  lemma {:induction false} FoldNothing(l: bv32)
    ensures Fold(l, []) == l
  {
  }

  // ---------- Stored checksums ----------

  function AddDelta(x: bv32): bv32 { x + 0xa282ead8 }

  function SubtractDelta(x: bv32): bv32 { x - 0xa282ead8 }

  function RotateRight(x: bv32): bv32 { (x >> 15) | (x << 17) }

  function RotateLeft(x: bv32): bv32 { (x >> 17) | (x << 15) }

  /** Rotate and add a constant, so that a stored checksum does not look like one. */
  function Mask(crc: bv32): bv32 {
    AddDelta(RotateRight(crc))
  }

  function Unmask(masked: bv32): bv32 {
    RotateLeft(SubtractDelta(masked))
  }

  lemma {:induction false} DeltaCancels(x: bv32)
    ensures SubtractDelta(AddDelta(x)) == x && AddDelta(SubtractDelta(x)) == x
  {
  }

  lemma {:induction false} RotateBack(x: bv32)
    ensures RotateLeft(RotateRight(x)) == x && RotateRight(RotateLeft(x)) == x
  {
  }

  /** Masking is a bijection, and Unmask is its inverse. */
  lemma {:induction false} MaskRoundTrip(x: bv32)
    ensures Unmask(Mask(x)) == x && Mask(Unmask(x)) == x
  {
    hide AddDelta, SubtractDelta, RotateLeft, RotateRight;
    DeltaCancels(RotateRight(x));
    DeltaCancels(x);
    RotateBack(x);
    RotateBack(SubtractDelta(x));
  }

  lemma {:induction false} KnownMasks()
    ensures Mask(0) == 0xa282_ead8 && Mask(1) == 0xa284_ead8 && Mask(0x8000) == 0xa282_ead9
  {
  }
}
