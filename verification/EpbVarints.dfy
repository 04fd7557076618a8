/** What apps/sink/epb.c makes of varints that its own setters do not write: any run of bytes,
    and the ten bytes in which other encoders write a negative number. */
module EpbVarints {
  import opened Ints
  import opened Seqs
  import opened EpbWire
  import opened EpbScan

  // ---------- The value, by where the continuation bits end ----------

  predicate Continues(data: seq<uint8>, start: nat, n: nat)
    requires start + n <= |data|
  {
    forall i :: start <= i < start + n ==> data[i] >= 0x80
  }

  function Low7(b: uint8): nat {
    b % 0x80
  }

  /** The groups of seven bits in the first `n` bytes, least significant first. */
  function Groups(data: seq<uint8>, start: nat, n: nat): nat
    requires start + n <= |data| && n <= 5
  {
    (if n > 0 then Low7(data[start]) else 0)
    + (if n > 1 then Low7(data[start + 1]) * 0x80 else 0)
    + (if n > 2 then Low7(data[start + 2]) * 0x4000 else 0)
    + (if n > 3 then Low7(data[start + 3]) * 0x20_0000 else 0)
    + (if n > 4 then Low7(data[start + 4]) * 0x1000_0000 else 0)
  }

  lemma {:induction false} Powers()
    ensures Pow128(1) == 0x80 && Pow128(2) == 0x4000 && Pow128(3) == 0x20_0000 && Pow128(4) == 0x1000_0000
    ensures Pow128(5) == 0x8_0000_0000
  {
    assert Pow128(0) == 1 && Pow128(1) == 0x80;
    assert Pow128(2) == 0x80 * Pow128(1);
    assert Pow128(3) == 0x80 * Pow128(2);
    assert Pow128(4) == 0x80 * Pow128(3);
  }

  lemma {:induction false} SumWraps(a: nat, b: nat)
    ensures (a + b % TWO_32) % TWO_32 == (a + b) % TWO_32
  {
  }

  /** After `k` bytes that go on, the loop holds their groups. */
  lemma {:induction false} NextGroup(data: seq<uint8>, start: nat, k: nat, acc: nat)
    requires 1 <= k <= 4 && start + k < |data|
    requires data[start + k - 1] >= 0x80 && acc % TWO_32 == Groups(data, start, k) % TWO_32
    ensures var next := acc + Group(data[start + k], k);
            && VarintFrom(data, start, k, acc) == VarintFrom(data, start, k + 1, next)
            && next % TWO_32 == Groups(data, start, k + 1) % TWO_32
  {
    Powers();
    var group: nat := Low7(data[start + k]) * Pow128(k);
    assert Groups(data, start, k + 1) == Groups(data, start, k) + group;
    hide Groups, Pow128;
    SumWraps(acc, group);
    SumWraps(group, acc);
    SumWraps(group, Groups(data, start, k));
  }

  /** Bytes that go on are read up to the fifth. */
  lemma {:induction false} ReadGroups(data: seq<uint8>, start: nat, n: nat) returns (acc: nat)
    requires 1 <= n <= 5 && start + n <= |data| && Continues(data, start, n - 1)
    ensures VarintAt(data, start) == VarintFrom(data, start, n, acc)
    ensures acc % TWO_32 == Groups(data, start, n) % TWO_32
  {
    if n == 1 {
      acc := data[start] % 0x80;
    } else {
      acc := ReadGroups(data, start, n - 1);
      hide VarintAt, VarintFrom, Groups;
      NextGroup(data, start, n - 1, acc);
      acc := acc + Group(data[start + n - 1], n - 1);
    }
  }

  /** A varint of at most five bytes is read whole. */
  lemma {:induction false} VarintEnds(data: seq<uint8>, start: nat, n: nat)
    requires 1 <= n <= 5 && start + n <= |data| && Continues(data, start, n - 1) && data[start + n - 1] < 0x80
    ensures VarintAt(data, start) == Complete(n, Groups(data, start, n) % TWO_32)
  {
    var acc := ReadGroups(data, start, n);
    hide VarintAt, Groups;
  }

  /** Of a longer one the first five bytes are read, and their groups kept modulo 2^32. */
  lemma {:induction false} VarintCut(data: seq<uint8>, start: nat)
    requires start + 5 < |data| && Continues(data, start, 5)
    ensures VarintAt(data, start) == Complete(5,
              (Low7(data[start]) + Low7(data[start + 1]) * 0x80 + Low7(data[start + 2]) * 0x4000
               + Low7(data[start + 3]) * 0x20_0000 + Low7(data[start + 4]) * 0x1000_0000) % TWO_32)
  {
    var acc := ReadGroups(data, start, 5);
    hide VarintAt;
  }

  /** One that goes on to the end of the buffer, within five bytes, is not read. */
  lemma {:induction false} VarintTruncated(data: seq<uint8>, start: nat)
    requires start < |data| <= start + 5 && Continues(data, start, |data| - start)
    ensures VarintAt(data, start) == Truncated
  {
    var acc := ReadGroups(data, start, |data| - start);
    hide VarintAt, Groups;
  }

  // ---------- Negative numbers as the standard has them ----------

  /** The sign-extended 64-bit form of a negative number. */
  function SignExtended(value: int32): (w: nat)
    requires value < 0
  {
    value + TWO_32 * TWO_32
  }

  lemma {:induction false} ShiftBytes(w: nat)
    requires w >= 0x80
    ensures |VarintBytes(w)| == 1 + |VarintBytes(w / 0x80)| && VarintBytes(w)[0] == w % 0x80 + 0x80
    ensures forall i :: 0 <= i < |VarintBytes(w / 0x80)| ==> VarintBytes(w)[i + 1] == VarintBytes(w / 0x80)[i]
  {
  }

  /** A varint that has more than `n` bytes: its first `n`, as groups of the number. */
  lemma {:induction false} FirstBytes(w: nat, n: nat)
    requires w >= Pow128(n)
    ensures |VarintBytes(w)| > n
    ensures forall i :: 0 <= i < n ==> VarintBytes(w)[i] >= 0x80
    ensures n > 0 ==> w >= 0x80 && w / 0x80 >= Pow128(n - 1) && VarintBytes(w)[0] % 0x80 == w % 0x80
    ensures forall i :: 0 < i < n ==> i - 1 < |VarintBytes(w / 0x80)| && VarintBytes(w)[i] == VarintBytes(w / 0x80)[i - 1]
    decreases n
  {
    if n == 0 {
      NotEmpty(w);
    } else {
      PowAtLeast(n);
      ShiftBytes(w);
      FirstBytes(w / 0x80, n - 1);
      hide VarintBytes;
      forall i | 0 < i < n ensures VarintBytes(w)[i] == VarintBytes(w / 0x80)[i - 1] {
        var k := i - 1;
        assert VarintBytes(w)[k + 1] == VarintBytes(w / 0x80)[k];
      }
    }
  }

  lemma {:induction false} PowAtLeast(n: nat)
    requires n > 0
    ensures Pow128(n) == 0x80 * Pow128(n - 1) >= 0x80
  {
    if n > 1 { PowAtLeast(n - 1); }
  }

  lemma {:induction false} Digits(w: nat)
    ensures var w1 := w / 0x80;
            var w2 := w1 / 0x80;
            var w3 := w2 / 0x80;
            var w4 := w3 / 0x80;
            w % 0x80 + w1 % 0x80 * 0x80 + w2 % 0x80 * 0x4000 + w3 % 0x80 * 0x20_0000 + w4 % 0x80 * 0x1000_0000
            == w % 0x8_0000_0000
  {
    var w1 := w / 0x80;
    var w2 := w1 / 0x80;
    var w3 := w2 / 0x80;
    var w4 := w3 / 0x80;
    var w5 := w4 / 0x80;
    assert w == w % 0x80 + 0x80 * w1 && w1 == w1 % 0x80 + 0x80 * w2 && w2 == w2 % 0x80 + 0x80 * w3;
    assert w3 == w3 % 0x80 + 0x80 * w4 && w4 == w4 % 0x80 + 0x80 * w5;
    Remainder(w, w5, w % 0x80 + w1 % 0x80 * 0x80 + w2 % 0x80 * 0x4000 + w3 % 0x80 * 0x20_0000 + w4 % 0x80 * 0x1000_0000);
  }

  lemma {:induction false} Remainder(w: nat, quotient: nat, rest: nat)
    requires w == quotient * 0x8_0000_0000 + rest && rest < 0x8_0000_0000
    ensures w % 0x8_0000_0000 == rest
  {
  }

  /** The groups of the first five bytes of a varint that has more. */
  lemma {:induction false} FirstFive(w: nat)
    requires w >= 0x8_0000_0000
    ensures var b := VarintBytes(w);
            |b| > 5 && Continues(b, 0, 5) && Groups(b, 0, 5) == w % 0x8_0000_0000
  {
    var w1 := w / 0x80;
    var w2 := w1 / 0x80;
    var w3 := w2 / 0x80;
    var w4 := w3 / 0x80;
    Powers();
    hide VarintBytes, Pow128;
    FirstBytes(w, 5);
    FirstBytes(w1, 4);
    FirstBytes(w2, 3);
    FirstBytes(w3, 2);
    FirstBytes(w4, 1);
    Digits(w);
  }

  lemma {:induction false} NotEmpty(w: nat)
    ensures |VarintBytes(w)| > 0
  {
  }

  lemma {:induction false} LowBits(value: int32)
    requires value < 0
    ensures SignExtended(value) >= 0x8_0000_0000
    ensures SignExtended(value) % 0x8_0000_0000 % TWO_32 == ToUint32(value)
    ensures ToInt32(ToUint32(value)) == value
  {
  }

  /** Every negative int32 in the ten bytes of its 64-bit form is read back, from the first five. */
  lemma {:induction false} NegativeReadBack(pre: seq<uint8>, value: int32, post: seq<uint8>)
    requires value < 0
    ensures VarintAt(pre + VarintBytes(SignExtended(value)) + post, |pre|) == Complete(5, ToUint32(value))
    ensures ToInt32(ToUint32(value)) == value
  {
    var w := SignExtended(value);
    var b := VarintBytes(w);
    var data := pre + b + post;
    LowBits(value);
    FirstFive(w);
    hide VarintBytes, VarintAt, SignExtended, ToUint32, Low7;
    assert forall i :: 0 <= i < 5 ==> data[|pre| + i] == b[i];
    VarintCut(data, |pre|);
  }

  // ---------- Tags of any length, and fixed numbers ----------

  /** The bytes of a tag as one number: eight bits for the first, and seven in each eight after it. */
  function TagValue(data: seq<uint8>, at: nat, n: nat): nat
    requires 1 <= n && at + n <= |data|
  {
    if n == 1 then data[at] else TagValue(data, at, n - 1) * 0x100 + Low7(data[at + n - 1])
  }

  lemma {:induction false} TagContinues(data: seq<uint8>, at: nat, n: nat)
    requires 1 <= n && at + n <= |data| && Continues(data, at, n - 1)
    ensures ReadTag(data, at + 1, data[at]) == ReadTag(data, at + n, TagValue(data, at, n) % TWO_32)
  {
    if n > 1 {
      TagContinues(data, at, n - 1);
      ScaledSum(TagValue(data, at, n - 1), Low7(data[at + n - 1]));
    }
  }

  lemma {:induction false} ScaledSum(a: nat, b: nat)
    ensures (a % TWO_32 * 0x100 + b) % TWO_32 == (a * 0x100 + b) % TWO_32
  {
    assert a == a / TWO_32 * TWO_32 + a % TWO_32;
    assert a * 0x100 + b == a / TWO_32 * 0x100 * TWO_32 + (a % TWO_32 * 0x100 + b);
  }

  /** A tag of any length, ended by a byte without the continuation bit or by the end of the buffer,
      is read as the low 32 bits of that number. */
  lemma {:induction false} TagOfAnyLength(data: seq<uint8>, at: nat, n: nat)
    requires 1 <= n && at + n <= |data| && Continues(data, at, n - 1)
    requires data[at + n - 1] < 0x80 || at + n == |data|
    ensures ReadTag(data, at + 1, data[at]) == (TagValue(data, at, n) % TWO_32, at + n)
  {
    TagContinues(data, at, n);
    hide TagValue;
  }

  /** A fixed number is four bytes, the lowest first; 0 where they are not all there. */
  lemma {:induction false} FixedOrZero(data: seq<uint8>, at: nat)
    ensures at + 4 > |data| ==> Fixed32At(data, at) == 0
    ensures at + 4 <= |data| ==> Fixed32Bytes(Fixed32At(data, at)) == data[at..at + 4]
  {
    if at + 4 <= |data| {
      FixedDigits(data[at], data[at + 1], data[at + 2], data[at + 3]);
    }
  }

  lemma {:induction false} FixedDigits(b0: uint8, b1: uint8, b2: uint8, b3: uint8)
    ensures Fixed32Bytes(LittleEndian(b0, b1, b2, b3)) == [b0, b1, b2, b3]
  {
    var v := LittleEndian(b0, b1, b2, b3);
    assert v / 0x100 == b1 + b2 * 0x100 + b3 * 0x1_0000;
    assert v / 0x100 / 0x100 == b2 + b3 * 0x100;
  }

  // ---------- In a message ----------

  /** A varint field of any length: its tag is matched, and otherwise all its bytes are skipped. */
  lemma {:induction false} VarintFieldTurn(pre: seq<uint8>, fieldTag: uint16, w: nat, post: seq<uint8>, tag: uint16)
    requires ValidTag(fieldTag, 0) && |pre + TagBytes(fieldTag) + VarintBytes(w) + post| < TWO_16
    ensures |pre| < |pre + TagBytes(fieldTag) + VarintBytes(w) + post|
    ensures ScanStep(pre + TagBytes(fieldTag) + VarintBytes(w) + post, tag, |pre|)
         == if fieldTag == tag then Match(|pre + TagBytes(fieldTag)|)
            else Advance(|pre + TagBytes(fieldTag) + VarintBytes(w)|)
  {
    var at, b := pre + TagBytes(fieldTag), VarintBytes(w);
    SkipVarintEncoded(at, w, post);
    NotEmpty(w);
    TagIsNotEmpty(fieldTag);
    hide ReadTag, WireType, TagBytes, VarintBytes, ScanStep, SkipVarint;
    AppendAssociates(at, b, post);
    ReadTagEncoded(pre, fieldTag, 0, b + post);
    StepBy(at + b + post, tag, |pre|, fieldTag, |at|, |b|);
  }

  /** A field of 64 fixed bits, which no getter reads, is skipped whole. */
  lemma {:induction false} Fixed64Turn(pre: seq<uint8>, fieldTag: uint16, bits: seq<uint8>, post: seq<uint8>, tag: uint16)
    requires ValidTag(fieldTag, 1) && |bits| == 8 && |pre + TagBytes(fieldTag) + bits + post| < TWO_16
    ensures |pre| < |pre + TagBytes(fieldTag) + bits + post|
    ensures ScanStep(pre + TagBytes(fieldTag) + bits + post, tag, |pre|)
         == if fieldTag == tag then Match(|pre + TagBytes(fieldTag)|)
            else Advance(|pre + TagBytes(fieldTag) + bits|)
  {
    var at := pre + TagBytes(fieldTag);
    TagIsNotEmpty(fieldTag);
    hide ReadTag, WireType, TagBytes, ScanStep;
    AppendAssociates(at, bits, post);
    ReadTagEncoded(pre, fieldTag, 1, bits + post);
    StepBy(at + bits + post, tag, |pre|, fieldTag, |at|, 8);
  }
}
