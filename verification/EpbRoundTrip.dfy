/** Printer and parser of apps/sink/epb.c together: what the getters make of what the setters
    wrote, for whole messages. */
module EpbRoundTrip {
  import opened Ints
  import opened Seqs
  import opened EpbWire
  import opened EpbScan
  import opened EpbParts
  import opened EpbVarints
  import Epb

  // ---------- Signed values ----------

  lemma {:induction false} ZigZagRoundTrip(value: int32)
    ensures Epb.UnZigZag(Epb.ZigZag(value)) == value
  {
    if value < 0 {
      assert 2 * value % TWO_32 == 2 * value + TWO_32;
    }
  }

  /** Small magnitudes of either sign get small encodings: the point of zigzag. */
  lemma {:induction false} ZigZagOrdersByMagnitude(a: int32, b: int32)
    ensures Epb.ZigZag(a) < Epb.ZigZag(b)
       <==> (if a < 0 then -2 * a - 1 else 2 * a) < (if b < 0 then -2 * b - 1 else 2 * b)
  {
    assert a < 0 ==> 2 * a % TWO_32 == 2 * a + TWO_32;
    assert b < 0 ==> 2 * b % TWO_32 == 2 * b + TWO_32;
  }

  /** A plain int32 survives the uint32 wire form; a negative one takes five bytes, where the
      standard takes ten. */
  lemma {:induction false} Int32RoundTrip(value: int32)
    ensures ToInt32(ToUint32(value)) == value
    ensures value < 0 ==> |VarintBytes(ToUint32(value))| == 5
  {
    VarintSize(ToUint32(value));
  }

  // ---------- Writing a list of fields ----------

  /** One setter call after another on the same buffer. */
  function WriteAll(contents: seq<uint8>, cap: nat, fs: seq<Field>): seq<uint8>
    decreases fs
  {
    if fs == [] then contents else WriteAll(AppendParts(contents, cap, Parts(fs[0])), cap, fs[1..])
  }

  lemma {:induction false} WriteAllBounds(contents: seq<uint8>, cap: nat, fs: seq<Field>)
    requires |contents| <= cap
    ensures contents <= WriteAll(contents, cap, fs)
    ensures |WriteAll(contents, cap, fs)| <= cap
    ensures |WriteAll(contents, cap, fs)| <= |contents| + |EncodeAll(fs)|
    decreases fs
  {
    if fs != [] {
      AppendPartsBounds(contents, cap, Parts(fs[0]));
      PartsAreEncoding(fs[0]);
      WriteAllBounds(AppendParts(contents, cap, Parts(fs[0])), cap, fs[1..]);
    }
  }

  /** The setters write exactly the encoding of the list if and only if it fits. No setter
      reports a failure, but the packed size falls short exactly when something was lost. */
  lemma {:induction false} WriteAllIff(contents: seq<uint8>, cap: nat, fs: seq<Field>)
    requires |contents| <= cap
    ensures cap - |contents| >= |EncodeAll(fs)| ==> WriteAll(contents, cap, fs) == contents + EncodeAll(fs)
    ensures |WriteAll(contents, cap, fs)| == |contents| + |EncodeAll(fs)| <==> cap - |contents| >= |EncodeAll(fs)|
    decreases fs
  {
    WriteAllBounds(contents, cap, fs);
    hide Encode, Parts, AppendParts, Concat;
    if fs == [] {
      assert contents + EncodeAll(fs) == contents;
    } else if cap - |contents| >= |EncodeAll(fs)| {
      PartsAreEncoding(fs[0]);
      EnoughRoom(contents, cap, Parts(fs[0]));
      WriteAllIff(contents + Encode(fs[0]), cap, fs[1..]);
      AppendAssociates(contents, Encode(fs[0]), EncodeAll(fs[1..]));
    }
  }

  lemma {:induction false} WriteAllAppend(contents: seq<uint8>, cap: nat, fs: seq<Field>, gs: seq<Field>)
    ensures WriteAll(contents, cap, fs + gs) == WriteAll(WriteAll(contents, cap, fs), cap, gs)
    decreases fs
  {
    if fs == [] {
      assert fs + gs == gs;
    } else {
      assert (fs + gs)[1..] == fs[1..] + gs;
      WriteAllAppend(AppendParts(contents, cap, Parts(fs[0])), cap, fs[1..], gs);
    }
  }

  // ---------- Reading it back ----------

  /** The field read at value offset `o` by the getter that matches `f`'s kind. */
  function ReadAs(data: seq<uint8>, o: nat, f: Field): Field {
    match f
    case VarintField(tag, _) => VarintField(tag, if o < |data| then Epb.UintAt(data, o) else 0)
    case Fixed32Field(tag, _) => Fixed32Field(tag, Fixed32At(data, o))
    case BytesField(tag, _) =>
      if o < |data| && VarintAt(data, o).Complete? then
        var (p, l) := Epb.BytesAt(data, o);
        BytesField(tag, if p + l <= |data| then data[p..p + l] else [])
      else
        BytesField(tag, [])
  }

  /** A length-delimited value lies whole in the buffer. */
  predicate BytesWhole(data: seq<uint8>, o: nat) {
    && o < |data| && VarintAt(data, o).Complete?
    && var (p, l) := Epb.BytesAt(data, o);
       p + l <= |data|
  }

  lemma {:induction false} ReadAsEncoded(pre: seq<uint8>, f: Field, post: seq<uint8>)
    requires ValidField(f) && |pre + Payload(f) + post| < TWO_16
    ensures |pre| < |pre + Payload(f) + post|
    ensures ReadAs(pre + Payload(f) + post, |pre|, f) == f
    ensures f.BytesField? ==> BytesWhole(pre + Payload(f) + post, |pre|)
  {
    hide VarintAt, VarintBytes, Fixed32At, Fixed32Bytes, ReadAs, BytesWhole;
    match f
    case VarintField(tag, v) =>
      VarintSize(v);
      VarintRoundTrip(pre, v, post);
      ReadNumber(pre + Payload(f) + post, |pre|, f);
    case Fixed32Field(tag, v) =>
      Fixed32RoundTrip(pre, v, post);
      ReadNumber(pre + Payload(f) + post, |pre|, f);
    case BytesField(tag, d) =>
      BytesRoundTrip(pre, d, post);
      ReadBytes(pre + Payload(f) + post, |pre|, |VarintBytes(|d|)|, f);
  }

  lemma {:induction false} ReadNumber(data: seq<uint8>, o: nat, f: Field)
    requires f.VarintField? ==> o < |data| && VarintAt(data, o).Complete? && VarintAt(data, o).value == f.value
    requires f.Fixed32Field? ==> Fixed32At(data, o) == f.value
    ensures !f.BytesField? ==> ReadAs(data, o, f) == f
  {
    hide VarintAt, Fixed32At;
  }

  lemma {:induction false} ReadBytes(data: seq<uint8>, o: nat, n: nat, f: Field)
    requires f.BytesField? && o < |data| < TWO_16 && |f.data| < TWO_16
    requires VarintAt(data, o) == Complete(n, |f.data|)
    requires o + n + |f.data| <= |data| && data[o + n..o + n + |f.data|] == f.data
    ensures ReadAs(data, o, f) == f && BytesWhole(data, o)
  {
    hide VarintAt;
  }

  lemma {:induction false} BytesRoundTrip(pre: seq<uint8>, d: seq<uint8>, post: seq<uint8>)
    requires |d| < TWO_16 && |pre + (VarintBytes(|d|) + d) + post| < TWO_16
    ensures var data := pre + (VarintBytes(|d|) + d) + post;
            && |pre| < |data|
            && VarintAt(data, |pre|) == Complete(|VarintBytes(|d|)|, |d|)
            && data[|pre| + |VarintBytes(|d|)|..|pre| + |VarintBytes(|d|)| + |d|] == d
  {
    hide VarintBytes, VarintAt;
    var data := pre + (VarintBytes(|d|) + d) + post;
    VarintSize(|d|);
    assert data == pre + VarintBytes(|d|) + (d + post);
    VarintRoundTrip(pre, |d|, d + post);
    assert data == (pre + VarintBytes(|d|)) + d + post;
  }

  lemma {:induction false} LittleEndianSplit(v: uint32)
    ensures LittleEndian(v % 0x100, v / 0x100 % 0x100, v / 0x100 / 0x100 % 0x100, v / 0x100 / 0x100 / 0x100) == v
  {
    var a := v / 0x100;
    var b := a / 0x100;
    assert v == v % 0x100 + 0x100 * a && a == a % 0x100 + 0x100 * b && b == b % 0x100 + 0x100 * (b / 0x100);
  }

  lemma {:induction false} Fixed32RoundTrip(pre: seq<uint8>, v: uint32, post: seq<uint8>)
    ensures |Fixed32Bytes(v)| == 4
    ensures Fixed32At(pre + Fixed32Bytes(v) + post, |pre|) == v
  {
    hide LittleEndian;
    var data, bytes := pre + Fixed32Bytes(v) + post, Fixed32Bytes(v);
    assert data[|pre|] == bytes[0] && data[|pre| + 1] == bytes[1];
    assert data[|pre| + 2] == bytes[2] && data[|pre| + 3] == bytes[3];
    LittleEndianSplit(v);
  }

  lemma {:induction false} EncodeAllSplit(fs: seq<Field>, i: nat)
    requires i < |fs|
    ensures EncodeAll(fs) == EncodeAll(fs[..i]) + TagBytes(fs[i].tag) + Payload(fs[i]) + EncodeAll(fs[i + 1..])
  {
    hide EncodeAll;
    EncodeAllMiddle(fs[..i], fs[i], fs[i + 1..]);
    assert fs == fs[..i] + [fs[i]] + fs[i + 1..];
  }

  /** Round trip. For every list of fields the setters write into a buffer with room, and
      every tag in it, the scan halts inside the buffer and the matching getter returns the
      value of the first field with that tag. */
  lemma {:induction false} GetReturnsFirst(fs: seq<Field>, cap: uint16, tag: uint16)
    requires ValidFields(fs) && |EncodeAll(fs)| <= cap && |EncodeAll(fs)| < 0xFFFF
    requires FirstIndex(fs, tag) < |fs|
    ensures var data, f := WriteAll([], cap, fs), fs[FirstIndex(fs, tag)];
            && |data| < TWO_16
            && Halts(data, tag, 0) && ScanResult(data, tag) < |data|
            && ReadAs(data, ScanResult(data, tag), f) == f
            && (f.BytesField? ==> BytesWhole(data, ScanResult(data, tag)))
  {
    var i := FirstIndex(fs, tag);
    hide EncodeAll, WriteAll, TagBytes, Payload, ReadAs, BytesWhole, ScanRun;
    WriteAllIff([], cap, fs);
    var data := EncodeAll(fs);
    assert [] + data == data;
    ScanFindsFirst(fs, tag);
    EncodeAllSplit(fs, i);
    var pre := EncodeAll(fs[..i]) + TagBytes(tag);
    assert data == pre + Payload(fs[i]) + EncodeAll(fs[i + 1..]);
    ReadAsEncoded(pre, fs[i], EncodeAll(fs[i + 1..]));
  }

  /** The getter of numbers gives 0 for a varint that the buffer cuts short, and otherwise the groups
      of its bytes, up to the fifth, modulo 2^32. */
  lemma {:induction false} NumberOfAnyBytes(data: seq<uint8>, at: nat, n: nat)
    requires 1 <= n <= 5 && at + n <= |data| && Continues(data, at, n - 1)
    ensures data[at + n - 1] < 0x80 || (n == 5 && at + 5 < |data|) ==> Epb.UintAt(data, at) == Groups(data, at, n) % TWO_32
    ensures data[at + n - 1] >= 0x80 && at + n == |data| ==> Epb.UintAt(data, at) == 0
  {
    hide Groups, VarintAt;
    if data[at + n - 1] < 0x80 {
      VarintEnds(data, at, n);
    } else if at + n == |data| {
      VarintTruncated(data, at);
    } else if n == 5 {
      CutGroups(data, at);
    }
  }

  lemma {:induction false} CutGroups(data: seq<uint8>, at: nat)
    requires at + 5 < |data| && Continues(data, at, 5)
    ensures VarintAt(data, at) == Complete(5, Groups(data, at, 5) % TWO_32)
  {
    VarintCut(data, at);
    hide VarintAt;
  }

  /** A negative number in ten bytes, behind any valid fields without its tag: the scan finds it,
      and the signed getter gives it back. */
  lemma {:induction false} NegativeFound(fs: seq<Field>, tag: uint16, value: int32, post: seq<uint8>)
    requires value < 0 && ValidFields(fs) && !HasTag(fs, tag) && ValidTag(tag, 0)
    requires |EncodeAll(fs) + TagBytes(tag) + VarintBytes(SignExtended(value)) + post| < 0xFFFF
    ensures var data := EncodeAll(fs) + TagBytes(tag) + VarintBytes(SignExtended(value)) + post;
            && Halts(data, tag, 0) && ScanResult(data, tag) == |EncodeAll(fs) + TagBytes(tag)| < |data|
            && ToInt32(Epb.UintAt(data, ScanResult(data, tag))) == value
  {
    var pre, bytes := EncodeAll(fs), VarintBytes(SignExtended(value));
    NotEmpty(SignExtended(value));
    VarintFieldTurn(pre, tag, SignExtended(value), post, tag);
    NegativeReadBack(pre + TagBytes(tag), value, post);
    hide EncodeAll, TagBytes, VarintBytes, VarintAt, ScanStep, ScanRun, HasTag, ValidFields, SignExtended;
    AppendAssociates(pre, TagBytes(tag), bytes);
    AppendAssociates(pre, TagBytes(tag) + bytes, post);
    TurnAfterFields(fs, TagBytes(tag) + bytes + post, tag);
  }

  /** A match at the bytes after the fields, none of which has the tag, is the result. */
  lemma {:induction false} TurnAfterFields(fs: seq<Field>, rest: seq<uint8>, tag: uint16)
    requires ValidFields(fs) && !HasTag(fs, tag) && |EncodeAll(fs)| < |EncodeAll(fs) + rest| < TWO_16
    requires ScanStep(EncodeAll(fs) + rest, tag, |EncodeAll(fs)|).Match?
    ensures Halts(EncodeAll(fs) + rest, tag, 0)
    ensures ScanResult(EncodeAll(fs) + rest, tag) == ScanStep(EncodeAll(fs) + rest, tag, |EncodeAll(fs)|).offset
  {
    NothingBefore(fs);
    hide EncodeAll, ScanStep, ScanRun, HasTag, ValidFields;
    ScanPasses(fs, 0, rest, tag, 1);
    NextTurn(EncodeAll(fs) + rest, tag, |EncodeAll(fs)|, 0);
    assert ScanRun(EncodeAll(fs) + rest, tag, 0, |fs| + 1).Found?;
  }

  // ---------- Field order ----------

  predicate DistinctTags(fs: seq<Field>) {
    forall i, j :: 0 <= i < j < |fs| ==> fs[i].tag != fs[j].tag
  }

  lemma {:induction false} RemoveOne<T>(fs: seq<T>, gs: seq<T>, j: nat)
    requires fs != [] && j < |gs| && gs[j] == fs[0] && multiset(fs) == multiset(gs)
    ensures multiset(fs[1..]) == multiset(gs[..j] + gs[j + 1..])
  {
    assert fs == [fs[0]] + fs[1..];
    assert gs == gs[..j] + [gs[j]] + gs[j + 1..];
    assert multiset(fs[1..]) == multiset(fs) - multiset{fs[0]} == multiset(gs) - multiset{fs[0]};
  }

  lemma {:induction false} EncodeAllLength(fs: seq<Field>, gs: seq<Field>)
    requires multiset(fs) == multiset(gs)
    ensures |EncodeAll(fs)| == |EncodeAll(gs)|
  {
    if fs == [] {
      assert |multiset(gs)| == |gs|;
    } else {
      var f := fs[0];
      assert f in multiset(gs);
      var j :| 0 <= j < |gs| && gs[j] == f;
      var a, b := gs[..j], gs[j + 1..];
      assert gs == a + [f] + b;
      RemoveOne(fs, gs, j);
      hide Encode;
      EncodeAllLength(fs[1..], a + b);
      EncodeAllAppend(a, b);
      EncodeAllMiddle(a, f, b);
    }
  }

  lemma {:induction false} SamePresence(fs: seq<Field>, gs: seq<Field>, tag: uint16)
    requires multiset(fs) == multiset(gs) && DistinctTags(fs)
    requires FirstIndex(fs, tag) < |fs|
    ensures FirstIndex(gs, tag) < |gs|
    ensures gs[FirstIndex(gs, tag)] == fs[FirstIndex(fs, tag)]
  {
    var f := fs[FirstIndex(fs, tag)];
    assert f in multiset(gs);
    var k :| 0 <= k < |gs| && gs[k] == f;
    var g := gs[FirstIndex(gs, tag)];
    assert g in multiset(fs);
    var m :| 0 <= m < |fs| && fs[m] == g;
  }

  /** With distinct tags the order of the fields does not matter: every permutation reads back
      the same value for every tag. */
  lemma {:induction false} OrderIrrelevant(fs: seq<Field>, gs: seq<Field>, cap: uint16, tag: uint16)
    requires ValidFields(fs) && |EncodeAll(fs)| <= cap && |EncodeAll(fs)| < 0xFFFF
    requires multiset(fs) == multiset(gs) && DistinctTags(fs)
    requires FirstIndex(fs, tag) < |fs|
    ensures var a, b, f := WriteAll([], cap, fs), WriteAll([], cap, gs), fs[FirstIndex(fs, tag)];
            && |a| < TWO_16 && |b| < TWO_16
            && Halts(a, tag, 0) && Halts(b, tag, 0)
            && ReadAs(a, ScanResult(a, tag), f) == ReadAs(b, ScanResult(b, tag), f) == f
  {
    SamePresence(fs, gs, tag);
    EncodeAllLength(fs, gs);
    forall i | 0 <= i < |gs| ensures ValidField(gs[i]) {
      assert gs[i] in multiset(fs);
    }
    GetReturnsFirst(fs, cap, tag);
    GetReturnsFirst(gs, cap, tag);
  }
}
