/** The CRC of apps/sink/crc32.c: reflected, a byte at a time with the table entry computed on
    demand, unrolled by eight. The reference is the bit-serial register of section 8 of
    RFC 1952: one message bit enters at the low end, one division step follows. */
module Crc32 {

  const POLY: bv32 := 0xedb8_8320
  const ONES: bv32 := 0xffff_ffff

  // ---------- Words, and the few facts about them that need bits ----------

  function Xor(x: bv32, y: bv32): bv32 { x ^ y }

  function Half(x: bv32): bv32 { x >> 1 }

  predicate Odd(x: bv32) { x & 1 != 0 }

  predicate Top(x: bv32) { x & 0x8000_0000 != 0 }

  function Low(b: bool): bv32 { if b then 1 else 0 }

  /** The word with `b` shifted in below `x`. */
  function Join(x: bv32, b: bool): bv32 { (x << 1) | Low(b) }

  lemma {:induction false} XorAssociates(x: bv32, y: bv32, z: bv32)
    ensures Xor(Xor(x, y), z) == Xor(x, Xor(y, z))
  {
  }

  lemma {:induction false} XorCommutes(x: bv32, y: bv32)
    ensures Xor(x, y) == Xor(y, x)
  {
  }

  lemma {:induction false} XorLaws(x: bv32, y: bv32, p: bv32)
    ensures Xor(Xor(p, x), Xor(p, y)) == Xor(x, y)
    ensures Xor(Xor(p, x), y) == Xor(p, Xor(x, y)) == Xor(x, Xor(p, y))
  {
    hide Xor;
    XorAssociates(p, x, y);
    XorAssociates(x, p, y);
    XorCommutes(p, x);
    XorAssociates(x, p, Xor(p, y));
    XorAssociates(p, p, y);
    XorCancels(p, p, 0);
    XorCancels(y, y, 0);
    XorCommutes(0, y);
  }

  lemma {:induction false} XorHalves(x: bv32, y: bv32)
    ensures Half(Xor(x, y)) == Xor(Half(x), Half(y))
    ensures Odd(Xor(x, y)) == (Odd(x) != Odd(y))
  {
    assert (x ^ y) & 1 == (x & 1) ^ (y & 1);
    assert x & 1 in {0, 1} && y & 1 in {0, 1};
  }

  lemma {:induction false} XorCancels(x: bv32, y: bv32, p: bv32)
    ensures Xor(x, p) == Xor(y, p) ==> x == y
    ensures Xor(p, x) == Xor(p, y) ==> x == y
    ensures Xor(x, x) == 0 && Xor(x, 0) == x
  {
    assert x == x ^ p ^ p && y == y ^ p ^ p;
    assert x == p ^ (p ^ x) && y == p ^ (p ^ y);
  }

  lemma {:induction false} JoinLaws(x: bv32, b: bool, c: bv32)
    requires !Top(x)
    ensures Half(Join(x, b)) == x && Odd(Join(x, b)) == b
    ensures Xor(c, Join(x, b)) == Xor(Xor(c, Low(b)), Join(x, false))
  {
  }

  // ---------- Bit-serial reference ----------

  /** One division step of the reflected polynomial. */
  function Shift(c: bv32): bv32 {
    if Odd(c) then Xor(POLY, Half(c)) else Half(c)
  }

  function ShiftN(c: bv32, n: nat): bv32
    decreases n
  {
    if n == 0 then c else ShiftN(Shift(c), n - 1)
  }

  /** The register after the message bits, first bit first. */
  function FeedBits(c: bv32, bits: seq<bool>): bv32
    decreases bits
  {
    if bits == [] then c else FeedBits(Shift(Xor(c, Low(bits[0]))), bits[1..])
  }

  /** The low n bits of a word, least significant first. */
  function WordBits(x: bv32, n: nat): (bits: seq<bool>)
    ensures |bits| == n
  {
    if n == 0 then [] else [Odd(x)] + WordBits(Half(x), n - 1)
  }

  function Bits(b: bv8): (bits: seq<bool>)
    ensures |bits| == 8
  {
    WordBits(b as bv32, 8)
  }

  function MessageBits(m: seq<bv8>): (bits: seq<bool>)
    ensures |bits| == 8 * |m|
  {
    if m == [] then [] else Bits(m[0]) + MessageBits(m[1..])
  }

  /** The CRC of `m`, continued from the CRC `c` of what came before. */
  function Crc(c: bv32, m: seq<bv8>): bv32 {
    Xor(FeedBits(Xor(c, ONES), MessageBits(m)), ONES)
  }

  // ---------- The step is linear and loses nothing ----------

  lemma {:induction false} ShiftLinear(x: bv32, y: bv32)
    ensures Shift(Xor(x, y)) == Xor(Shift(x), Shift(y))
  {
    hide Xor, Half, Odd;
    XorHalves(x, y);
    XorLaws(Half(x), Half(y), POLY);
  }

  lemma {:induction false} ShiftShowsLowBit(x: bv32)
    ensures Top(Shift(x)) == Odd(x)
  {
  }

  lemma {:induction false} HalfAndLow(x: bv32, y: bv32)
    requires Half(x) == Half(y) && Odd(x) == Odd(y)
    ensures x == y
  {
    assert x == ((x >> 1) << 1) | (x & 1) && y == ((y >> 1) << 1) | (y & 1);
    assert x & 1 in {0, 1} && y & 1 in {0, 1};
  }

  lemma {:induction false} ShiftInjective(x: bv32, y: bv32)
    requires Shift(x) == Shift(y)
    ensures x == y
  {
    hide Xor, Half, Odd, Top;
    ShiftShowsLowBit(x);
    ShiftShowsLowBit(y);
    XorCancels(Half(x), Half(y), POLY);
    HalfAndLow(x, y);
  }

  lemma {:induction false} ShiftNInjective(x: bv32, y: bv32, n: nat)
    requires ShiftN(x, n) == ShiftN(y, n)
    ensures x == y
    decreases n
  {
    hide Shift;
    if n > 0 {
      ShiftNInjective(Shift(x), Shift(y), n - 1);
      ShiftInjective(x, y);
    }
  }

  lemma {:induction false} ShiftNLinear(x: bv32, y: bv32, n: nat)
    ensures ShiftN(Xor(x, y), n) == Xor(ShiftN(x, n), ShiftN(y, n))
    decreases n
  {
    hide Shift, Xor;
    if n > 0 {
      ShiftLinear(x, y);
      ShiftNLinear(Shift(x), Shift(y), n - 1);
    }
  }

  lemma {:induction false} ShiftNCompose(x: bv32, m: nat, n: nat)
    ensures ShiftN(x, m + n) == ShiftN(ShiftN(x, m), n)
    decreases m
  {
    hide Shift;
    if m > 0 { ShiftNCompose(Shift(x), m - 1, n); }
  }

  lemma {:induction false} FeedBitsAppend(c: bv32, a: seq<bool>, b: seq<bool>)
    ensures FeedBits(c, a + b) == FeedBits(FeedBits(c, a), b)
    decreases a
  {
    hide Shift, Xor;
    if a == [] {
      assert a + b == b;
    } else {
      assert (a + b)[1..] == a[1..] + b;
      FeedBitsAppend(Shift(Xor(c, Low(a[0]))), a[1..], b);
    }
  }

  /** Different registers stay different whatever follows. */
  lemma {:induction false} FeedBitsInjective(x: bv32, y: bv32, bits: seq<bool>)
    requires FeedBits(x, bits) == FeedBits(y, bits)
    ensures x == y
    decreases bits
  {
    hide Shift, Xor;
    if bits != [] {
      var l := Low(bits[0]);
      FeedBitsInjective(Shift(Xor(x, l)), Shift(Xor(y, l)), bits[1..]);
      ShiftInjective(Xor(x, l), Xor(y, l));
      XorCancels(x, y, l);
    }
  }

  // ---------- Up to 32 bits enter the register as one word ----------

  function Pack(bits: seq<bool>): bv32 {
    if bits == [] then 0 else Join(Pack(bits[1..]), bits[0])
  }

  /** The mask of all bit positions from n up. */
  function From(n: nat): bv32 {
    if n == 0 then ONES else Join(From(n - 1), false)
  }

  predicate Clear(x: bv32, mask: bv32) { x & mask == 0 }

  lemma {:induction false} JoinClear(x: bv32, mask: bv32, b: bool)
    requires Clear(x, mask)
    ensures Clear(Join(x, b), Join(mask, false))
  {
    assert (x << 1) & (mask << 1) == (x & mask) << 1;
  }

  lemma {:induction false} FromValues()
    ensures From(8) == 0xffff_ff00 && From(31) == 0x8000_0000 && From(32) == 0
  {
    assert From(4) == 0xffff_fff0;
    assert From(8) == 0xffff_ff00;
    assert From(12) == 0xffff_f000;
    assert From(16) == 0xffff_0000;
    assert From(20) == 0xfff0_0000;
    assert From(24) == 0xff00_0000;
    assert From(28) == 0xf000_0000;
  }

  /** With every set bit, all higher ones are set. */
  predicate UpwardClosed(x: bv32) { (x << 1) & !x == 0 }

  lemma {:induction false} UpwardClosedLaws(x: bv32)
    requires UpwardClosed(x)
    ensures UpwardClosed(Join(x, false))
    ensures Top(Join(x, false)) ==> Top(x)
  {
  }

  lemma {:induction false} FromIsUpwardClosed(n: nat)
    ensures UpwardClosed(From(n))
  {
    hide Join, UpwardClosed;
    if n > 0 {
      FromIsUpwardClosed(n - 1);
      UpwardClosedLaws(From(n - 1));
    } else {
      assert UpwardClosed(ONES) by { OnesUpwardClosed(); }
    }
  }

  lemma {:induction false} OnesUpwardClosed()
    ensures UpwardClosed(ONES)
  {
  }

  lemma {:induction false} FromHasTop(n: nat)
    requires n <= 31
    ensures Top(From(n))
    decreases 31 - n
  {
    hide Join, UpwardClosed, Top;
    if n < 31 {
      FromHasTop(n + 1);
      FromIsUpwardClosed(n);
      UpwardClosedLaws(From(n));
    } else {
      FromValues();
      TopOfTop();
    }
  }

  lemma {:induction false} TopOfTop()
    ensures Top(0x8000_0000)
  {
  }

  lemma {:induction false} PackIsShort(bits: seq<bool>)
    ensures Clear(Pack(bits), From(|bits|))
  {
    hide Join;
    if bits != [] {
      PackIsShort(bits[1..]);
      JoinClear(Pack(bits[1..]), From(|bits| - 1), bits[0]);
    } else {
      assert Clear(0, ONES);
    }
  }

  lemma {:induction false} ClearTop(x: bv32, mask: bv32)
    requires Clear(x, mask) && Top(mask)
    ensures !Top(x)
  {
  }

  lemma {:induction false} PackTopClear(bits: seq<bool>)
    requires |bits| <= 31
    ensures !Top(Pack(bits))
  {
    hide Join, Clear, Top;
    PackIsShort(bits);
    FromHasTop(|bits|);
    ClearTop(Pack(bits), From(|bits|));
  }

  lemma {:induction false} PackInjective(a: seq<bool>, b: seq<bool>)
    requires |a| == |b| <= 32 && Pack(a) == Pack(b)
    ensures a == b
  {
    hide Join, Half, Odd, Top, Xor;
    if a != [] {
      PackTopClear(a[1..]);
      PackTopClear(b[1..]);
      JoinLaws(Pack(a[1..]), a[0], 0);
      JoinLaws(Pack(b[1..]), b[0], 0);
      PackInjective(a[1..], b[1..]);
      assert a == [a[0]] + a[1..] && b == [b[0]] + b[1..];
    }
  }

  lemma {:induction false} ShiftAbsorbs(c: bv32, p: bv32, b: bool)
    requires !Top(p)
    ensures Xor(Shift(Xor(c, Low(b))), p) == Shift(Xor(c, Join(p, b)))
  {
    hide Join, Half, Odd, Top, Xor;
    JoinLaws(p, b, c);
    JoinLaws(p, false, c);
    ShiftLinear(Xor(c, Low(b)), Join(p, false));
  }

  /** Feeding n <= 32 bits is n steps on the register with the whole word xored in. */
  lemma {:induction false} FeedWord(c: bv32, bits: seq<bool>)
    requires |bits| <= 32
    ensures FeedBits(c, bits) == ShiftN(Xor(c, Pack(bits)), |bits|)
    decreases bits
  {
    hide Join, Top, Xor, Shift;
    if bits != [] {
      PackTopClear(bits[1..]);
      ShiftAbsorbs(c, Pack(bits[1..]), bits[0]);
      FeedWord(Shift(Xor(c, Low(bits[0]))), bits[1..]);
    } else {
      XorCancels(c, c, 0);
    }
  }

  /** Packing undoes WordBits on a word of at most n bits. */
  lemma {:induction false} PackWordBits(x: bv32, n: nat)
    requires Clear(x, From(n))
    ensures Pack(WordBits(x, n)) == x
    decreases n
  {
    hide Join, Half, Odd, Clear;
    if n == 0 {
      ClearOfAll(x);
    } else {
      ClearHalf(x, From(n - 1));
      PackWordBits(Half(x), n - 1);
      assert WordBits(x, n)[1..] == WordBits(Half(x), n - 1);
      JoinOfHalf(x);
    }
  }

  lemma {:induction false} ClearOfAll(x: bv32)
    requires Clear(x, ONES)
    ensures x == 0
  {
  }

  lemma {:induction false} ClearHalf(x: bv32, mask: bv32)
    requires Clear(x, Join(mask, false))
    ensures Clear(Half(x), mask)
  {
  }

  lemma {:induction false} JoinOfHalf(x: bv32)
    ensures Join(Half(x), Odd(x)) == x
  {
  }

  lemma {:induction false} PackByte(b: bv8)
    ensures Pack(Bits(b)) == b as bv32
  {
    hide Pack, WordBits;
    ByteIsShort(b);
    PackWordBits(b as bv32, 8);
  }

  lemma {:induction false} ByteIsShort(b: bv8)
    ensures Clear(b as bv32, From(8))
  {
    FromValues();
  }

  lemma {:induction false} BitsInjective(a: bv8, b: bv8)
    requires Bits(a) == Bits(b)
    ensures a == b
  {
    hide Pack, Bits;
    PackByte(a);
    PackByte(b);
  }

  lemma {:induction false} MessageBitsInjective(a: seq<bv8>, b: seq<bv8>)
    requires MessageBits(a) == MessageBits(b)
    ensures a == b
  {
    hide Bits;
    if a != [] {
      assert |b| == |a|;
      assert MessageBits(a)[..8] == Bits(a[0]) && MessageBits(b)[..8] == Bits(b[0]);
      BitsInjective(a[0], b[0]);
      assert MessageBits(a)[8..] == MessageBits(a[1..]) && MessageBits(b)[8..] == MessageBits(b[1..]);
      MessageBitsInjective(a[1..], b[1..]);
      assert a == [a[0]] + a[1..] && b == [b[0]] + b[1..];
    }
  }

  /** Burst detection: two messages of equal length that differ, and only inside a window of
      at most 32 consecutive bits, never have the same CRC. */
  lemma {:induction false} DetectsBurst(c: bv32, m1: seq<bv8>, m2: seq<bv8>,
                                        before: seq<bool>, w1: seq<bool>, w2: seq<bool>, after: seq<bool>)
    requires |w1| == |w2| <= 32
    requires MessageBits(m1) == before + w1 + after && MessageBits(m2) == before + w2 + after
    requires m1 != m2
    ensures Crc(c, m1) != Crc(c, m2)
  {
    hide Xor, FeedBits, Shift, Pack, MessageBits, ShiftN;
    if Crc(c, m1) == Crc(c, m2) {
      var start := Xor(c, ONES);
      var r := FeedBits(start, before);
      FeedBitsAppend(start, before + w1, after);
      FeedBitsAppend(start, before, w1);
      FeedBitsAppend(start, before + w2, after);
      FeedBitsAppend(start, before, w2);
      XorCancels(FeedBits(start, MessageBits(m1)), FeedBits(start, MessageBits(m2)), ONES);
      FeedBitsInjective(FeedBits(r, w1), FeedBits(r, w2), after);
      FeedWord(r, w1);
      FeedWord(r, w2);
      ShiftNInjective(Xor(r, Pack(w1)), Xor(r, Pack(w2)), |w1|);
      XorCancels(Pack(w1), Pack(w2), r);
      PackInjective(w1, w2);
      MessageBitsInjective(m1, m2);
    }
  }

  lemma {:induction false} MessageBitsAppend(a: seq<bv8>, b: seq<bv8>)
    ensures MessageBits(a + b) == MessageBits(a) + MessageBits(b)
  {
    hide Bits;
    if a == [] {
      assert a + b == b;
    } else {
      assert (a + b)[1..] == a[1..] + b;
      MessageBitsAppend(a[1..], b);
    }
  }

  /** The same for whole bytes: a window of at most four. */
  lemma {:induction false} DetectsByteBurst(c: bv32, before: seq<bv8>, w1: seq<bv8>, w2: seq<bv8>, after: seq<bv8>)
    requires |w1| == |w2| <= 4 && w1 != w2
    ensures Crc(c, before + w1 + after) != Crc(c, before + w2 + after)
  {
    hide Crc, MessageBits;
    MessageBitsAppend(before + w1, after);
    MessageBitsAppend(before, w1);
    MessageBitsAppend(before + w2, after);
    MessageBitsAppend(before, w2);
    var m1, m2 := before + w1 + after, before + w2 + after;
    assert m1[|before|..|before| + |w1|] == w1 && m2[|before|..|before| + |w2|] == w2;
    DetectsBurst(c, m1, m2, MessageBits(before), MessageBits(w1), MessageBits(w2), MessageBits(after));
  }

  /** Continuing a CRC over a split message is the CRC of the whole, at every split. */
  lemma {:induction false} CrcOfSplit(c: bv32, a: seq<bv8>, b: seq<bv8>)
    ensures Crc(Crc(c, a), b) == Crc(c, a + b)
  {
    hide Xor, Shift, FeedBits, MessageBits;
    var r := FeedBits(Xor(c, ONES), MessageBits(a));
    XorAssociates(r, ONES, ONES);
    XorCancels(ONES, ONES, 0);
    XorCancels(r, r, 0);
    MessageBitsAppend(a, b);
    FeedBitsAppend(Xor(c, ONES), MessageBits(a), MessageBits(b));
  }

  // ---------- The byte step ----------

  /** Eight steps on a word whose low byte is clear only shift it out. */
  lemma {:induction false} ShiftOutZeros(y: bv32)
    requires y & 0xff == 0
    ensures ShiftN(y, 8) == DropByte(y)
  {
    hide Shift;
    var y1, y2, y3, y4, y5, y6, y7, y8 := y >> 1, y >> 2, y >> 3, y >> 4, y >> 5, y >> 6, y >> 7, y >> 8;
    EvenSteps(y);
    assert ShiftN(y7, 1) == ShiftN(y8, 0);
    assert ShiftN(y6, 2) == ShiftN(y7, 1);
    assert ShiftN(y5, 3) == ShiftN(y6, 2);
    assert ShiftN(y4, 4) == ShiftN(y5, 3);
    assert ShiftN(y3, 5) == ShiftN(y4, 4);
    assert ShiftN(y2, 6) == ShiftN(y3, 5);
    assert ShiftN(y1, 7) == ShiftN(y2, 6);
    assert ShiftN(y, 8) == ShiftN(y1, 7);
  }

  lemma {:induction false} EvenSteps(y: bv32)
    requires y & 0xff == 0
    ensures Shift(y) == y >> 1 && Shift(y >> 1) == y >> 2 && Shift(y >> 2) == y >> 3 && Shift(y >> 3) == y >> 4
    ensures Shift(y >> 4) == y >> 5 && Shift(y >> 5) == y >> 6 && Shift(y >> 6) == y >> 7 && Shift(y >> 7) == y >> 8
  {
  }

  function LowByte(x: bv32): bv32 { x & 0xff }

  function Rest(x: bv32): bv32 { x & 0xffff_ff00 }

  function DropByte(x: bv32): bv32 { x >> 8 }

  lemma {:induction false} SplitLowByte(x: bv32)
    ensures Xor(Rest(x), LowByte(x)) == x
    ensures Rest(x) & 0xff == 0 && DropByte(Rest(x)) == DropByte(x)
  {
  }

  lemma {:induction false} EightSteps(x: bv32)
    ensures ShiftN(x, 8) == Xor(ShiftN(LowByte(x), 8), DropByte(x))
  {
    hide Xor, ShiftN, LowByte, Rest;
    SplitLowByte(x);
    ShiftNLinear(Rest(x), LowByte(x), 8);
    ShiftOutZeros(Rest(x));
    XorCommutes(DropByte(x), ShiftN(LowByte(x), 8));
  }

  /** The table index of DO1: the register is cut to 16 bits before the byte is xored in. */
  function TableIndex(c: bv32, b: bv8): bv32 {
    (((c & 0xffff) as bv16 ^ (b as bv16)) & 0xff) as bv32
  }

  /** A byte enters as eight bits: a table step, by linearity. */
  lemma {:induction false} ByteStep(c: bv32, b: bv8)
    ensures FeedBits(c, Bits(b)) == Xor(ShiftN(TableIndex(c, b), 8), DropByte(c))
  {
    hide Xor, Bits, FeedBits, ShiftN, Pack, DropByte, LowByte, TableIndex;
    PackByte(b);
    FeedWord(c, Bits(b));
    EightSteps(Xor(c, b as bv32));
    IndexByte(c, b);
  }

  lemma {:induction false} IndexByte(c: bv32, b: bv8)
    ensures LowByte(Xor(c, b as bv32)) == TableIndex(c, b)
    ensures DropByte(Xor(c, b as bv32)) == DropByte(c)
  {
  }

  // ---------- Residue ----------

  function FirstByte(x: bv32): bv8 { (x & 0xff) as bv8 }

  /** The CRC as the four bytes that follow the message, low byte first. */
  function CrcBytes(c: bv32): seq<bv8> {
    var c1 := DropByte(c);
    var c2 := DropByte(c1);
    [FirstByte(c), FirstByte(c1), FirstByte(c2), FirstByte(DropByte(c2))]
  }

  const RESIDUE: bv32 := 0x2144_df1c

  function HalfN(x: bv32, n: nat): bv32 {
    if n == 0 then x else HalfN(Half(x), n - 1)
  }

  lemma {:induction false} WordBitsSplit(x: bv32, m: nat, n: nat)
    ensures WordBits(x, m + n) == WordBits(x, m) + WordBits(HalfN(x, m), n)
    decreases m
  {
    hide Half, Odd;
    if m > 0 { WordBitsSplit(Half(x), m - 1, n); }
  }

  function LowMask(n: nat): bv32 {
    if n == 0 then 0 else Join(LowMask(n - 1), true)
  }

  function And(x: bv32, mask: bv32): bv32 { x & mask }

  lemma {:induction false} WordBitsOfMasked(x: bv32, n: nat)
    ensures WordBits(And(x, LowMask(n)), n) == WordBits(x, n)
    decreases n
  {
    hide Join, Half, Odd, And;
    if n > 0 {
      MaskedHalf(x, LowMask(n - 1));
      WordBitsOfMasked(Half(x), n - 1);
    }
  }

  lemma {:induction false} MaskedHalf(x: bv32, mask: bv32)
    ensures Odd(And(x, Join(mask, true))) == Odd(x)
    ensures Half(And(x, Join(mask, true))) == And(Half(x), mask)
  {
  }

  lemma {:induction false} LowByteBits(x: bv32)
    ensures WordBits(x, 8) == Bits(FirstByte(x))
    ensures HalfN(x, 8) == DropByte(x)
  {
    hide WordBits, HalfN;
    assert LowMask(4) == 0xf;
    assert LowMask(8) == 0xff;
    WordBitsOfMasked(x, 8);
    ByteBack(x);
    EightHalves(x);
  }

  lemma {:induction false} ByteBack(x: bv32)
    ensures FirstByte(x) as bv32 == x & 0xff
  {
  }

  lemma {:induction false} EightHalves(x: bv32)
    ensures HalfN(x, 8) == x >> 8
  {
    hide Half;
    assert HalfN(x, 8) == HalfN(Half(x), 7) == HalfN(Half(Half(x)), 6) == HalfN(Half(Half(Half(x))), 5)
        == HalfN(Half(Half(Half(Half(x)))), 4);
    var y := Half(Half(Half(Half(x))));
    assert HalfN(y, 4) == HalfN(Half(y), 3) == HalfN(Half(Half(y)), 2) == HalfN(Half(Half(Half(y))), 1)
        == HalfN(Half(Half(Half(Half(y)))), 0);
    FourHalves(x);
    FourHalves(x >> 4);
    ShiftTwice(x);
  }

  lemma {:induction false} FourHalves(x: bv32)
    ensures Half(Half(Half(Half(x)))) == x >> 4
  {
  }

  lemma {:induction false} ShiftTwice(x: bv32)
    ensures (x >> 4) >> 4 == x >> 8
  {
  }

  lemma {:induction false} PackCrcBytes(c: bv32)
    ensures Pack(MessageBits(CrcBytes(c))) == c
    ensures |MessageBits(CrcBytes(c))| == 32
  {
    hide Pack, Bits, WordBits, HalfN, DropByte, FirstByte;
    MessageBitsOfFour(CrcBytes(c));
    var c1 := DropByte(c);
    var c2 := DropByte(c1);
    var c3 := DropByte(c2);
    LowByteBits(c);
    LowByteBits(c1);
    LowByteBits(c2);
    LowByteBits(c3);
    WordBitsSplit(c, 8, 24);
    WordBitsSplit(c1, 8, 16);
    WordBitsSplit(c2, 8, 8);
    NothingAbove(c);
    PackWordBits(c, 32);
  }

  lemma {:induction false} NothingAbove(c: bv32)
    ensures Clear(c, From(32))
  {
    FromValues();
  }

  lemma {:induction false} MessageBitsOfFour(s: seq<bv8>)
    requires |s| == 4
    ensures MessageBits(s) == Bits(s[0]) + (Bits(s[1]) + (Bits(s[2]) + Bits(s[3])))
  {
    hide Bits;
    assert MessageBits(s[3..]) == Bits(s[3]) + [] == Bits(s[3]);
    assert s[2..][1..] == s[3..] && s[1..][1..] == s[2..];
    assert MessageBits(s[2..]) == Bits(s[2]) + MessageBits(s[3..]);
    assert MessageBits(s[1..]) == Bits(s[1]) + MessageBits(s[2..]);
  }

  lemma {:induction false} FourSteps(x: bv32, y: bv32, n: nat)
    requires Shift(Shift(Shift(Shift(x)))) == y
    ensures ShiftN(x, 4 + n) == ShiftN(y, n)
  {
    hide Shift;
    ShiftNCompose(x, 4, n);
    assert ShiftN(x, 4) == ShiftN(Shift(x), 3) == ShiftN(Shift(Shift(x)), 2) == ShiftN(Shift(Shift(Shift(x))), 1);
  }

  lemma {:induction false} SixteenSteps()
    ensures ShiftN(0xffff_ffff, 32) == ShiftN(0xbe26_ed00, 16)
  {
    hide ShiftN;
    FourSteps(0xffff_ffff, 0xb242_0de3, 28);
    FourSteps(0xb242_0de3, 0x2dfd_1072, 24);
    FourSteps(0x2dfd_1072, 0x39b1_f1cf, 20);
    FourSteps(0x39b1_f1cf, 0xbe26_ed00, 16);
  }

  lemma {:induction false} LastSixteenSteps()
    ensures ShiftN(0xbe26_ed00, 16) == ShiftN(0xdebb_20e3, 0)
  {
    hide ShiftN;
    FourSteps(0xbe26_ed00, 0x0be2_6ed0, 12);
    FourSteps(0x0be2_6ed0, 0x00be_26ed, 8);
    FourSteps(0x00be_26ed, 0x86d8_30ba, 4);
    FourSteps(0x86d8_30ba, 0xdebb_20e3, 0);
  }

  lemma {:induction false} ThirtyTwoSteps()
    ensures ShiftN(ONES, 32) == Xor(RESIDUE, ONES)
  {
    SixteenSteps();
    LastSixteenSteps();
  }

  /** Four bytes after a message make the CRC the residue constant if and only if they are the
      message's own CRC, low byte first; the constant is the same for every message. */
  lemma {:induction false} ResidueIff(c: bv32, m: seq<bv8>, x: bv32)
    ensures Crc(c, m + CrcBytes(x)) == RESIDUE <==> x == Crc(c, m)
  {
    hide Xor, FeedBits, MessageBits, ShiftN, CrcBytes;
    var r := FeedBits(Xor(c, ONES), MessageBits(m));
    MessageBitsAppend(m, CrcBytes(x));
    FeedBitsAppend(Xor(c, ONES), MessageBits(m), MessageBits(CrcBytes(x)));
    PackCrcBytes(x);
    FeedWord(r, MessageBits(CrcBytes(x)));
    assert Crc(c, m + CrcBytes(x)) == Xor(ShiftN(Xor(r, x), 32), ONES);
    ThirtyTwoSteps();
    XorAssociates(r, r, ONES);
    XorCancels(r, r, 0);
    XorCancels(ONES, ONES, 0);
    XorCommutes(0, ONES);
    if x == Crc(c, m) {
      assert Xor(r, x) == ONES;
      XorAssociates(RESIDUE, ONES, ONES);
      XorCancels(RESIDUE, RESIDUE, 0);
    } else if Crc(c, m + CrcBytes(x)) == RESIDUE {
      XorAssociates(RESIDUE, ONES, ONES);
      XorCancels(RESIDUE, RESIDUE, 0);
      XorCancels(ShiftN(Xor(r, x), 32), ShiftN(ONES, 32), ONES);
      ShiftNInjective(Xor(r, x), ONES, 32);
      XorCancels(x, Xor(r, ONES), r);
    }
  }

  // ---------- The C code ----------

  /** crc_table: the table entry, by eight steps. */
  method CrcTable(index: bv32) returns (c: bv32)
    ensures c == ShiftN(index, 8)
  {
    hide Xor, Half, Odd;
    c := index;
    for k := 0 to 8
      invariant ShiftN(index, 8) == ShiftN(c, 8 - k)
    {
      c := if Odd(c) then Xor(POLY, Half(c)) else Half(c);
    }
  }

  /** DO1 */
  method Do1(crc: bv32, b: bv8) returns (r: bv32)
    ensures r == FeedBits(crc, Bits(b))
  {
    ByteStep(crc, b);
    hide Bits, FeedBits, Xor, ShiftN;
    var entry := CrcTable(TableIndex(crc, b));
    return Xor(entry, DropByte(crc));
  }

  lemma {:induction false} OneByte(c: bv32, a: seq<bv8>, b: bv8)
    ensures FeedBits(c, MessageBits(a + [b])) == FeedBits(FeedBits(c, MessageBits(a)), Bits(b))
  {
    hide Bits, FeedBits;
    MessageBitsAppend(a, [b]);
    assert MessageBits([b]) == Bits(b) + MessageBits([]) == Bits(b);
    FeedBitsAppend(c, MessageBits(a), Bits(b));
  }

  /** DO2 */
  method Do2(crc: bv32, buf: array<bv8>, at: nat, ghost done: seq<bv8>, ghost init: bv32) returns (r: bv32)
    requires at + 2 <= buf.Length
    requires crc == FeedBits(init, MessageBits(done))
    ensures r == FeedBits(init, MessageBits(done + buf[at..at + 2]))
  {
    hide FeedBits, MessageBits, Bits;
    OneByte(init, done, buf[at]);
    OneByte(init, done + [buf[at]], buf[at + 1]);
    r := Do1(crc, buf[at]);
    r := Do1(r, buf[at + 1]);
    assert done + [buf[at]] + [buf[at + 1]] == done + buf[at..at + 2];
  }

  /** DO4 */
  method Do4(crc: bv32, buf: array<bv8>, at: nat, ghost done: seq<bv8>, ghost init: bv32) returns (r: bv32)
    requires at + 4 <= buf.Length
    requires crc == FeedBits(init, MessageBits(done))
    ensures r == FeedBits(init, MessageBits(done + buf[at..at + 4]))
  {
    hide FeedBits, MessageBits;
    r := Do2(crc, buf, at, done, init);
    r := Do2(r, buf, at + 2, done + buf[at..at + 2], init);
    assert done + buf[at..at + 2] + buf[at + 2..at + 4] == done + buf[at..at + 4];
  }

  /** DO8 */
  method Do8(crc: bv32, buf: array<bv8>, at: nat, ghost done: seq<bv8>, ghost init: bv32) returns (r: bv32)
    requires at + 8 <= buf.Length
    requires crc == FeedBits(init, MessageBits(done))
    ensures r == FeedBits(init, MessageBits(done + buf[at..at + 8]))
  {
    hide FeedBits, MessageBits;
    r := Do4(crc, buf, at, done, init);
    r := Do4(r, buf, at + 4, done + buf[at..at + 4], init);
    assert done + buf[at..at + 4] + buf[at + 4..at + 8] == done + buf[at..at + 8];
  }

  /** crc32: eight bytes a turn, then the rest one at a time; a null buffer gives 0. */
  method Crc32(crc: bv32, buf: array?<bv8>, len: nat) returns (r: bv32)
    requires buf != null ==> len <= buf.Length && len < 0x1_0000
    ensures buf == null ==> r == 0
    ensures buf != null ==> r == Crc(crc, buf[..len])
  {
    hide FeedBits, MessageBits, Bits, Xor;
    if buf == null { return 0; }
    var c := Xor(crc, ONES);
    ghost var init := c;
    var left, at := len, 0;
    EmptyMessage(init);
    assert buf[..0] == [];
    while left >= 8
      invariant at + left == len
      invariant c == FeedBits(init, MessageBits(buf[..at]))
    {
      c := Do8(c, buf, at, buf[..at], init);
      assert buf[..at] + buf[at..at + 8] == buf[..at + 8];
      at := at + 8;
      left := left - 8;
    }
    while left > 0
      invariant at + left == len
      invariant c == FeedBits(init, MessageBits(buf[..at]))
    {
      OneByte(init, buf[..at], buf[at]);
      c := Do1(c, buf[at]);
      assert buf[..at] + [buf[at]] == buf[..at + 1];
      at := at + 1;
      left := left - 1;
    }
    return Xor(c, ONES);
  }

  lemma {:induction false} EmptyMessage(c: bv32)
    ensures FeedBits(c, MessageBits([])) == c
  {
  }
}
