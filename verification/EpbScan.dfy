/** What the tag scan of apps/sink/epb.c finds in a message the setters wrote, and when it
    returns at all. */
module EpbScan {
  import opened Ints
  import opened EpbWire
  import opened Seqs

  // ---------- Varints ----------

  lemma {:induction false} Pow128Split(w: nat, k: nat)
    requires k >= 1
    ensures w * Pow128(k - 1) == w % 0x80 * Pow128(k - 1) + w / 0x80 * Pow128(k)
    ensures w % 0x80 * Pow128(k - 1) >= 0 && w / 0x80 * Pow128(k) >= 0
  {
    var p := Pow128(k - 1);
    assert Pow128(k) == 0x80 * p;
    assert w == w % 0x80 + w / 0x80 * 0x80;
    calc {
      w * p;
      (w % 0x80 + w / 0x80 * 0x80) * p;
      w % 0x80 * p + w / 0x80 * 0x80 * p;
      w % 0x80 * p + w / 0x80 * (0x80 * p);
    }
  }

  lemma {:induction false} ContinuedVarintIsShort(w: nat, k: nat)
    requires k >= 5 && w >= 0x80
    ensures w * Pow128(k - 1) >= TWO_32
  {
    Pow128AtLeast(k - 1);
    Product(w, 0x80, Pow128(k - 1), Pow128(4));
  }

  /** Reading resumes at the varint of `w`, the part not yet accumulated. */
  lemma {:induction false} VarintFromEncoded(pre: seq<uint8>, w: nat, post: seq<uint8>, start: nat, k: nat, below: nat, acc: nat)
    requires k >= 1 && start + k - 1 == |pre|
    requires below + w * Pow128(k - 1) < TWO_32
    requires acc == below + w % 0x80 * Pow128(k - 1)
    ensures VarintFrom(pre + VarintBytes(w) + post, start, k, acc)
         == Complete(k - 1 + |VarintBytes(w)|, below + w * Pow128(k - 1))
    decreases w
  {
    Pow128Split(w, k);
    var data := pre + VarintBytes(w) + post;
    assert data[|pre|] == VarintBytes(w)[0];
    if w >= 0x80 {
      var rest, top := w / 0x80, w / 0x80 * Pow128(k);
      var pre' := pre + [w % 0x80 + 0x80];
      assert data == pre' + VarintBytes(rest) + post;
      assert data[start + k] == VarintBytes(rest)[0];
      assert data[start + k] % 0x80 == rest % 0x80;
      if k >= 5 { ContinuedVarintIsShort(w, k); }
      var group := Group(data[start + k], k);
      assert group == rest % 0x80 * Pow128(k) by { Pow128Split(rest, k + 1); }
      VarintFromEncoded(pre', rest, post, start, k + 1, acc, acc + group);
    }
  }

  lemma {:induction false} Product(a: nat, b: nat, c: nat, d: nat)
    requires a >= b && c >= d
    ensures a * c >= b * d
  {
    assert a * c >= b * c;
    assert b * c >= b * d;
  }

  lemma {:induction false} Pow128AtLeast(k: nat)
    requires k >= 4
    ensures Pow128(k) >= Pow128(4)
  {
    if k > 4 { Pow128AtLeast(k - 1); }
  }

  /** Varint round trip: wherever the bytes of a uint32 stand in a buffer, the decoder reads
      back that value and consumes exactly those bytes. */
  lemma {:induction false} VarintRoundTrip(pre: seq<uint8>, v: uint32, post: seq<uint8>)
    ensures VarintAt(pre + VarintBytes(v) + post, |pre|) == Complete(|VarintBytes(v)|, v)
  {
    assert (pre + VarintBytes(v) + post)[|pre|] == VarintBytes(v)[0];
    VarintFromEncoded(pre, v, post, |pre|, 1, 0, v % 0x80);
  }

  /** The size of a uint32 varint: one byte for every seven significant bits. */
  lemma {:induction false} VarintSize(v: uint32)
    ensures |VarintBytes(v)| == if v < 0x80 then 1 else if v < 0x4000 then 2 else if v < 0x20_0000 then 3
                                else if v < 0x1000_0000 then 4 else 5
  {
    var v1 := v / 0x80;
    var v2 := v1 / 0x80;
    var v3 := v2 / 0x80;
    var v4 := v3 / 0x80;
    assert v4 < 0x80;
    assert |VarintBytes(v3)| == if v3 < 0x80 then 1 else 1 + |VarintBytes(v4)|;
    assert |VarintBytes(v2)| == if v2 < 0x80 then 1 else 1 + |VarintBytes(v3)|;
    assert |VarintBytes(v1)| == if v1 < 0x80 then 1 else 1 + |VarintBytes(v2)|;
    assert |VarintBytes(v)| == if v < 0x80 then 1 else 1 + |VarintBytes(v1)|;
  }

  lemma {:induction false} SkipVarintEncoded(pre: seq<uint8>, v: nat, post: seq<uint8>)
    ensures SkipVarint(pre + VarintBytes(v) + post, |pre|) == |pre| + |VarintBytes(v)|
    decreases v
  {
    if v >= 0x80 {
      var pre' := pre + [v % 0x80 + 0x80];
      assert pre + VarintBytes(v) + post == pre' + VarintBytes(v / 0x80) + post;
      SkipVarintEncoded(pre', v / 0x80, post);
    }
  }

  // ---------- One field ----------

  lemma {:induction false} ReadOneByteTag(data: seq<uint8>, at: nat)
    requires at < |data| && data[at] < 0x80
    ensures ReadTag(data, at + 1, data[at]) == (data[at], at + 1)
  {
  }

  lemma {:induction false} ReadTwoByteTag(data: seq<uint8>, at: nat, tag: uint16)
    requires at + 2 <= |data| && tag >= 0x8000
    requires data[at] == tag / 0x100 && data[at + 1] == tag % 0x100 < 0x80
    ensures ReadTag(data, at + 1, data[at]) == (tag, at + 2)
  {
    assert ReadTag(data, at + 2, tag) == (tag, at + 2);
  }

  lemma {:induction false} ReadTagEncoded(pre: seq<uint8>, tag: uint16, wireType: nat, post: seq<uint8>)
    requires ValidTag(tag, wireType) && wireType < 8
    ensures var data := pre + TagBytes(tag) + post;
            ReadTag(data, |pre| + 1, data[|pre|]) == (tag, |pre| + |TagBytes(tag)|)
    ensures WireType(tag) == wireType
  {
    hide ReadTag;
    TagWireType(tag, wireType);
    hide WireType;
    var data := pre + TagBytes(tag) + post;
    assert data[|pre|] == TagBytes(tag)[0];
    if tag >= 0x100 {
      assert data[|pre| + 1] == TagBytes(tag)[1];
      ReadTwoByteTag(data, |pre|, tag);
    } else {
      ReadOneByteTag(data, |pre|);
    }
  }

  lemma {:induction false} TagWireType(tag: uint16, wireType: nat)
    requires ValidTag(tag, wireType) && wireType < 8
    ensures WireType(tag) == wireType
  {
  }

  lemma {:induction false} FixedSize(v: uint32)
    ensures |Fixed32Bytes(v)| == 4
  {
  }

  lemma {:induction false} ValueLengthEncoded(pre: seq<uint8>, f: Field, post: seq<uint8>)
    requires ValidField(f)
    requires |pre + Payload(f) + post| < TWO_16
    ensures ValueLength(pre + Payload(f) + post, |pre|, WireTypeOf(f)) == SkipBy(|Payload(f)|)
  {
    hide SkipVarint, VarintAt, VarintBytes, Fixed32Bytes;
    match f
    case VarintField(_, v) =>
      VarintSize(v);
      SkipVarintEncoded(pre, v, post);
    case Fixed32Field(_, v) => assert |Fixed32Bytes(v)| == 4 by { FixedSize(v); }
    case BytesField(_, d) =>
      VarintSize(|d|);
      assert pre + Payload(f) + post == pre + VarintBytes(|d|) + (d + post);
      VarintRoundTrip(pre, |d|, d + post);
  }

  /** One turn of the scan at the start of a written field. */
  lemma {:induction false} ScanStepEncoded(pre: seq<uint8>, f: Field, post: seq<uint8>, tag: uint16)
    requires ValidField(f) && |pre + Encode(f) + post| < TWO_16
    ensures ScanStep(pre + Encode(f) + post, tag, |pre|)
         == if f.tag == tag then Match(|pre| + |TagBytes(f.tag)|) else Advance(|pre| + |Encode(f)|)
  {
    hide ReadTag, ValueLength, WireType, TagBytes, Payload;
    var data := pre + Encode(f) + post;
    assert data == pre + TagBytes(f.tag) + (Payload(f) + post);
    ReadTagEncoded(pre, f.tag, WireTypeOf(f), Payload(f) + post);
    assert data == (pre + TagBytes(f.tag)) + Payload(f) + post;
    ValueLengthEncoded(pre + TagBytes(f.tag), f, post);
  }

  // ---------- Whole messages ----------

  /** Index of the first field with the tag, or |fs|. */
  function FirstIndex(fs: seq<Field>, tag: uint16): (i: nat)
    ensures i <= |fs|
    ensures i < |fs| ==> fs[i].tag == tag
    ensures forall j :: 0 <= j < i ==> fs[j].tag != tag
  {
    if fs == [] || fs[0].tag == tag then 0 else 1 + FirstIndex(fs[1..], tag)
  }

  predicate HasTag(fs: seq<Field>, tag: uint16) {
    exists i :: 0 <= i < |fs| && fs[i].tag == tag
  }

  lemma {:induction false} EncodeAllAppend(fs: seq<Field>, gs: seq<Field>)
    ensures EncodeAll(fs + gs) == EncodeAll(fs) + EncodeAll(gs)
  {
    if fs == [] {
      assert fs + gs == gs;
    } else {
      assert (fs + gs)[1..] == fs[1..] + gs;
      EncodeAllAppend(fs[1..], gs);
    }
  }

  lemma {:induction false} EncodeAllMiddle(before: seq<Field>, f: Field, after: seq<Field>)
    ensures EncodeAll(before + [f] + after) == EncodeAll(before) + Encode(f) + EncodeAll(after)
  {
    assert [f][1..] == [];
    assert EncodeAll([f]) == Encode(f);
    EncodeAllAppend(before + [f], after);
    EncodeAllAppend(before, [f]);
  }

  /** Where the value of the first field with the tag starts, counted from the first field. */
  function FirstValueOffset(fs: seq<Field>, tag: uint16): nat {
    if fs == [] then 0
    else if fs[0].tag == tag then |TagBytes(tag)|
    else |Encode(fs[0])| + FirstValueOffset(fs[1..], tag)
  }

  lemma {:induction false} FirstValueOffsetSplits(fs: seq<Field>, tag: uint16)
    requires FirstIndex(fs, tag) < |fs|
    ensures FirstValueOffset(fs, tag) == |EncodeAll(fs[..FirstIndex(fs, tag)])| + |TagBytes(tag)|
  {
    var i := FirstIndex(fs, tag);
    if i > 0 {
      FirstValueOffsetSplits(fs[1..], tag);
      assert fs[..i][1..] == fs[1..][..i - 1];
    }
  }

  lemma {:induction false} ScanOneField(pre: seq<uint8>, f: Field, post: seq<uint8>, tag: uint16, fuel: nat)
    requires ValidField(f) && |pre + Encode(f) + post| < TWO_16
    ensures |pre| + |TagBytes(f.tag)| <= |pre| + |Encode(f)| < TWO_16
    ensures ScanRun(pre + Encode(f) + post, tag, |pre|, fuel + 1)
         == if f.tag == tag then Found(|pre| + |TagBytes(f.tag)|)
            else ScanRun(pre + Encode(f) + post, tag, |pre| + |Encode(f)|, fuel)
  {
    hide ScanStep, TagBytes, Payload;
    ScanStepEncoded(pre, f, post, tag);
    assert |TagBytes(f.tag)| > 0 by { TagIsNotEmpty(f.tag); }
    assert |pre| < |pre + Encode(f) + post|;
  }

  lemma {:induction false} TagIsNotEmpty(tag: uint16)
    ensures 1 <= |TagBytes(tag)| <= 2
  {
  }

  /** The scan walks the fields one turn each, and stops at the first with the tag. */
  lemma {:induction false} ScanFields(pre: seq<uint8>, fs: seq<Field>, post: seq<uint8>, tag: uint16, fuel: nat)
    requires ValidFields(fs) && |pre + EncodeAll(fs) + post| < TWO_16
    ensures FirstIndex(fs, tag) < |fs| ==>
              && |pre| + FirstValueOffset(fs, tag) < TWO_16
              && ScanRun(pre + EncodeAll(fs) + post, tag, |pre|, |fs| + fuel) == Found(|pre| + FirstValueOffset(fs, tag))
    ensures FirstIndex(fs, tag) == |fs| ==>
              ScanRun(pre + EncodeAll(fs) + post, tag, |pre|, |fs| + fuel)
              == ScanRun(pre + EncodeAll(fs) + post, tag, |pre| + |EncodeAll(fs)|, fuel)
    decreases fs
  {
    hide ScanRun, Encode, ScanStep;
    if fs != [] {
      var f, rest := fs[0], fs[1..];
      var data := pre + EncodeAll(fs) + post;
      assert data == pre + Encode(f) + (EncodeAll(rest) + post);
      ScanOneField(pre, f, EncodeAll(rest) + post, tag, |rest| + fuel);
      if f.tag != tag {
        assert data == (pre + Encode(f)) + EncodeAll(rest) + post;
        assert ValidFields(rest);
        ScanFields(pre + Encode(f), rest, post, tag, fuel);
      }
    }
  }

  /** One turn of a scan that finishes. */
  lemma {:induction false} ScanTurn(data: seq<uint8>, tag: uint16, offset: uint16, turns: nat)
    requires offset < |data| < TWO_16
    requires ScanRun(data, tag, offset, turns).Found? || ScanRun(data, tag, offset, turns).NotFound?
    ensures turns > 0
    ensures var (t, o) := ReadTag(data, offset + 1, data[offset]);
            if t == tag then ScanRun(data, tag, offset, turns) == Found(o)
            else match ValueLength(data, o, WireType(t))
              case SkipBy(ret) => ScanRun(data, tag, offset, turns) == ScanRun(data, tag, (o + ret) % TWO_16, turns - 1)
              case SkipOverrun => false
  {
  }

  lemma {:induction false} ScanEnds(data: seq<uint8>, tag: uint16, offset: uint16, turns: nat)
    requires |data| <= offset
    ensures ScanRun(data, tag, offset, turns) == NotFound
  {
  }

  /** More turns do not change a finished scan. */
  lemma {:induction false} ScanIsStable(data: seq<uint8>, tag: uint16, offset: uint16, fuel: nat, more: nat)
    requires |data| < TWO_16 && fuel <= more
    requires !ScanRun(data, tag, offset, fuel).Unfinished?
    ensures ScanRun(data, tag, offset, more) == ScanRun(data, tag, offset, fuel)
    decreases fuel
  {
    if offset < |data| {
      match ScanStep(data, tag, offset)
      case Match(_) =>
      case Advance(o) => ScanIsStable(data, tag, o, fuel - 1, more - 1);
      case Overrun =>
    }
  }

  /** The scan's result, for a buffer on which it halts. */
  ghost function ScanResult(data: seq<uint8>, tag: uint16): (r: uint16)
    requires |data| < TWO_16 && Halts(data, tag, 0)
    ensures forall fuel: nat | !ScanRun(data, tag, 0, fuel).Unfinished? ::
              ScanRun(data, tag, 0, fuel) == if ScanRun(data, tag, 0, fuel).Found? then Found(r) else NotFound
    ensures forall fuel: nat | ScanRun(data, tag, 0, fuel).NotFound? :: r == FAILURE
  {
    var fuel: nat :| ScanRun(data, tag, 0, fuel).Found? || ScanRun(data, tag, 0, fuel).NotFound?;
    assert forall more: nat | !ScanRun(data, tag, 0, more).Unfinished? ::
        ScanRun(data, tag, 0, more) == ScanRun(data, tag, 0, fuel) by {
      forall more: nat | !ScanRun(data, tag, 0, more).Unfinished?
        ensures ScanRun(data, tag, 0, more) == ScanRun(data, tag, 0, fuel)
      {
        if fuel <= more { ScanIsStable(data, tag, 0, fuel, more); } else { ScanIsStable(data, tag, 0, more, fuel); }
      }
    }
    if ScanRun(data, tag, 0, fuel).Found? then ScanRun(data, tag, 0, fuel).offset else FAILURE
  }

  /** Main scan theorem. On every message the setters can write, for every tag, the scan
      halts; its result is the value offset of the first field with that tag, and 0xFFFF
      when there is none. First wins, where the standard says last. */
  lemma {:induction false} ScanFindsFirst(fs: seq<Field>, tag: uint16)
    requires ValidFields(fs) && |EncodeAll(fs)| < 0xFFFF
    ensures Halts(EncodeAll(fs), tag, 0)
    ensures var i := FirstIndex(fs, tag);
            ScanResult(EncodeAll(fs), tag)
            == if i < |fs| then |EncodeAll(fs[..i])| + |TagBytes(tag)| else FAILURE
  {
    hide EncodeAll, ScanStep, FirstValueOffset;
    var data := EncodeAll(fs);
    assert [] + data + [] == data;
    ScanFields([], fs, [], tag, 0);
    var r := ScanRun(data, tag, 0, |fs|);
    if FirstIndex(fs, tag) < |fs| {
      FirstValueOffsetSplits(fs, tag);
      assert r.Found?;
    } else {
      assert r.NotFound?;
    }
  }

  // ---------- When the scan does not return ----------

  predicate KnownWireType(w: nat) {
    w == 0 || w == 1 || w == 2 || w == 5
  }

  /** One turn of the scan whose tag and value length are known. */
  lemma {:induction false} StepBy(data: seq<uint8>, tag: uint16, offset: uint16, read: uint16, valueAt: nat, ret: uint16)
    requires offset < |data| < TWO_16 && valueAt <= |data|
    requires ReadTag(data, offset + 1, data[offset]) == (read, valueAt)
    requires ValueLength(data, valueAt, WireType(read)) == SkipBy(ret)
    ensures ScanStep(data, tag, offset) == if read == tag then Match(valueAt) else Advance((valueAt + ret) % TWO_16)
  {
    hide ReadTag, ValueLength, WireType;
  }

  lemma {:induction false} UnknownLength(data: seq<uint8>, offset: nat, bad: uint8)
    requires offset <= |data| < TWO_16 && bad < 0x80 && !KnownWireType(bad % 8)
    ensures ValueLength(data, offset, WireType(bad)) == SkipBy(FAILURE)
  {
    OneByteWireType(bad);
    hide WireType;
  }

  lemma {:induction false} OneByteWireType(tag: uint8)
    ensures WireType(tag) == tag % 8
  {
    assert tag % TWO_16 == tag && tag / 0x100 == 0;
  }

  /** One turn of the scan at a one-byte tag of unknown wire type. */
  lemma {:induction false} UnknownTurn(pre: seq<uint8>, bad: uint8, rest: seq<uint8>, tag: uint16)
    requires |pre + ([bad] + rest)| < TWO_16
    requires bad < 0x80 && !KnownWireType(bad % 8)
    ensures ScanStep(pre + ([bad] + rest), tag, |pre|) == if tag == bad then Match(|pre| + 1) else Advance(|pre|)
  {
    var data := pre + ([bad] + rest);
    assert data[|pre|] == bad;
    hide ReadTag, ValueLength, WireType, ScanStep, KnownWireType;
    ReadOneByteTag(data, |pre|);
    UnknownLength(data, |pre| + 1, bad);
    StepBy(data, tag, |pre|, bad, |pre| + 1, FAILURE);
  }

  /** The error return of epb_get_value_length is 0xFFFF, so a one-byte tag of unknown wire
      type sends the scan back to that same tag. */
  lemma {:induction false} UnknownWireTypeLoops(pre: seq<uint8>, bad: uint8, post: seq<uint8>, tag: uint16, fuel: nat)
    requires |pre + [bad] + post| < TWO_16
    requires bad < 0x80 && !KnownWireType(bad % 8) && bad != tag
    ensures ScanRun(pre + [bad] + post, tag, |pre|, fuel).Unfinished?
    decreases fuel
  {
    AppendAssociates(pre, [bad], post);
    UnknownTurn(pre, bad, post, tag);
    hide ScanStep, KnownWireType;
    if fuel > 0 { UnknownWireTypeLoops(pre, bad, post, tag, fuel - 1); }
  }

  /** A message that continues with such a tag: the scan returns if and only if the tag it
      looks for is among the fields before it, or is that tag itself. */
  lemma {:induction false} ScanHaltsIff(fs: seq<Field>, bad: uint8, post: seq<uint8>, tag: uint16)
    requires ValidFields(fs) && |EncodeAll(fs) + [bad] + post| < TWO_16
    requires bad < 0x80 && !KnownWireType(bad % 8)
    ensures Halts(EncodeAll(fs) + [bad] + post, tag, 0)
       <==> HasTag(fs, tag) || tag == bad
  {
    hide EncodeAll, ScanStep, ScanRun, KnownWireType, Halts, HasTag, ValidFields;
    AppendAssociates(EncodeAll(fs), [bad], post);
    UnknownTurn(EncodeAll(fs), bad, post, tag);
    assert fs[..|fs|] == fs;
    GoesBackIff(fs, |fs|, [bad] + post, tag);
  }

  /** After a two-byte tag of unknown wire type the scan takes its second byte for a tag, and may
      well return. */
  lemma {:induction false} UnknownWireTypeCanHalt(tag: uint16)
    requires tag != 0x8300 && tag != 0
    ensures WireType(0x8300) == 3 && Halts([0x83, 0x00, 0x05], tag, 0)
  {
    var data: seq<uint8> := [0x83, 0x00, 0x05];
    ReadTwoByteTag(data, 0, 0x8300);
    ReadOneByteTag(data, 1);
    assert ScanStep(data, tag, 0) == Advance(1);
    assert SkipVarint(data, 2) == 3;
    assert ScanStep(data, tag, 1) == Advance(3);
    hide ScanStep;
    assert ScanRun(data, tag, 3, 0).NotFound?;
    assert ScanRun(data, tag, 1, 1) == ScanRun(data, tag, 3, 0);
    assert ScanRun(data, tag, 0, 2).NotFound?;
  }

  /** A length-delimited field as far as its length. */
  function LengthOnly(tag: uint16, length: uint32): (b: seq<uint8>)
    ensures |b| > 0
  {
    TagIsNotEmpty(tag);
    TagBytes(tag) + VarintBytes(length)
  }

  /** A length-delimited field whose length brings the 16-bit offset back to the start of field `k`,
      or, as the last, of the field itself. */
  predicate WrapsTo(fs: seq<Field>, k: nat, tag: uint16, length: uint32) {
    && k <= |fs|
    && ValidTag(tag, 2)
    && (|EncodeAll(fs)| + |LengthOnly(tag, length)| + length) % TWO_16 == |EncodeAll(fs[..k])|
  }

  /** One turn of the scan at a length-delimited field, read as far as its length. */
  lemma {:induction false} LengthTurn(pre: seq<uint8>, lengthTag: uint16, length: uint32, post: seq<uint8>, tag: uint16)
    requires ValidTag(lengthTag, 2)
    requires |pre + LengthOnly(lengthTag, length) + post| < TWO_16
    ensures |pre| < |pre + LengthOnly(lengthTag, length) + post|
    ensures ScanStep(pre + LengthOnly(lengthTag, length) + post, tag, |pre|)
         == if lengthTag == tag then Match(|pre| + |TagBytes(lengthTag)|)
            else Advance((|pre| + |LengthOnly(lengthTag, length)| + length) % TWO_16)
  {
    var at, b := pre + TagBytes(lengthTag), VarintBytes(length);
    var data := at + b + post;
    LengthSkip(at, length, post);
    TagIsNotEmpty(lengthTag);
    VarintSize(length);
    hide ReadTag, WireType, TagBytes, VarintBytes, ValueLength, ScanStep;
    AppendAssociates(pre, TagBytes(lengthTag), b);
    AppendAssociates(at, b, post);
    ReadTagEncoded(pre, lengthTag, 2, b + post);
    WrappedSum(|at|, |b| + length);
    StepBy(data, tag, |pre|, lengthTag, |at|, (|b| + length) % TWO_16);
  }

  lemma {:induction false} WrappedSum(a: nat, b: nat)
    ensures (a + b % TWO_16) % TWO_16 == (a + b) % TWO_16
  {
  }

  lemma {:induction false} LengthSkip(pre: seq<uint8>, length: uint32, post: seq<uint8>)
    requires |pre + VarintBytes(length) + post| < TWO_16
    ensures ValueLength(pre + VarintBytes(length) + post, |pre|, 2) == SkipBy((|VarintBytes(length)| + length) % TWO_16)
  {
    VarintRoundTrip(pre, length, post);
    VarintSize(length);
    hide VarintAt, VarintBytes;
  }

  /** The second way not to return, with wire types the scan knows: the scan returns if and only
      if the tag it looks for is among the fields before the wrapping one, or is its tag. */
  lemma {:induction false} LengthWrapHaltsIff(
      fs: seq<Field>, k: nat, wrapTag: uint16, length: uint32, post: seq<uint8>, tag: uint16)
    requires ValidFields(fs) && WrapsTo(fs, k, wrapTag, length)
    requires |EncodeAll(fs) + LengthOnly(wrapTag, length) + post| < TWO_16
    ensures Halts(EncodeAll(fs) + LengthOnly(wrapTag, length) + post, tag, 0)
       <==> HasTag(fs, tag) || tag == wrapTag
  {
    LengthTurn(EncodeAll(fs), wrapTag, length, post, tag);
    hide EncodeAll, ScanStep, ScanRun, LengthOnly, Halts, HasTag, ValidFields;
    AppendAssociates(EncodeAll(fs), LengthOnly(wrapTag, length), post);
    GoesBackIff(fs, k, LengthOnly(wrapTag, length) + post, tag);
  }

  // ---------- Going back to an earlier field ----------

  lemma {:induction false} NextTurn(data: seq<uint8>, tag: uint16, offset: uint16, fuel: nat)
    requires offset < |data| < TWO_16
    ensures var next := ScanStep(data, tag, offset);
            && (next.Match? ==> ScanRun(data, tag, offset, fuel + 1) == Found(next.offset))
            && (next.Advance? ==> ScanRun(data, tag, offset, fuel + 1) == ScanRun(data, tag, next.offset, fuel))
  {
    hide ScanStep;
  }

  lemma {:induction false} NoTurn(data: seq<uint8>, tag: uint16, offset: uint16)
    requires offset < |data| < TWO_16
    ensures ScanRun(data, tag, offset, 0).Unfinished?
  {
  }

  lemma {:induction false} FirstIndexOf(fs: seq<Field>, tag: uint16)
    ensures FirstIndex(fs, tag) < |fs| <==> HasTag(fs, tag)
  {
  }

  lemma {:induction false} AbsentAfter(fs: seq<Field>, k: nat, tag: uint16)
    requires ValidFields(fs) && k <= |fs| && !HasTag(fs, tag)
    ensures ValidFields(fs[k..]) && FirstIndex(fs[k..], tag) == |fs| - k
  {
    var tail := fs[k..];
    assert forall j :: 0 <= j < |tail| ==> tail[j] == fs[k + j];
    hide ValidField, FirstIndex;
    FirstIndexOf(tail, tag);
  }

  lemma {:induction false} EncodeAllSplit(fs: seq<Field>, k: nat)
    requires k <= |fs|
    ensures EncodeAll(fs) == EncodeAll(fs[..k]) + EncodeAll(fs[k..])
  {
    hide EncodeAll;
    EncodeAllAppend(fs[..k], fs[k..]);
    assert fs[..k] + fs[k..] == fs;
  }

  /** A field with the tag is found. */
  lemma {:induction false} ScanStops(fs: seq<Field>, rest: seq<uint8>, tag: uint16, fuel: nat)
    requires ValidFields(fs) && |EncodeAll(fs) + rest| < TWO_16 && HasTag(fs, tag)
    ensures ScanRun(EncodeAll(fs) + rest, tag, 0, |fs| + fuel).Found?
  {
    hide EncodeAll, ScanRun, FirstValueOffset, HasTag, FirstIndex, ValidFields;
    assert [] + EncodeAll(fs) == EncodeAll(fs);
    FirstIndexOf(fs, tag);
    ScanFields([], fs, rest, tag, fuel);
  }

  /** With no such field, one turn for each field from the `k`-th leads to the bytes after them. */
  lemma {:induction false} ScanPasses(fs: seq<Field>, k: nat, rest: seq<uint8>, tag: uint16, fuel: nat)
    requires ValidFields(fs) && k <= |fs| && |EncodeAll(fs) + rest| < TWO_16 && !HasTag(fs, tag)
    ensures |EncodeAll(fs[..k])| <= |EncodeAll(fs)|
    ensures ScanRun(EncodeAll(fs) + rest, tag, |EncodeAll(fs[..k])|, |fs| - k + fuel)
         == ScanRun(EncodeAll(fs) + rest, tag, |EncodeAll(fs)|, fuel)
  {
    hide EncodeAll, ScanRun, FirstValueOffset, HasTag, FirstIndex, ValidFields;
    AbsentAfter(fs, k, tag);
    EncodeAllSplit(fs, k);
    ScanFields(EncodeAll(fs[..k]), fs[k..], rest, tag, fuel);
  }

  lemma {:induction false} GoesRound(fs: seq<Field>, k: nat, rest: seq<uint8>, tag: uint16, fuel: nat)
    requires ValidFields(fs) && k <= |fs| && |EncodeAll(fs)| < |EncodeAll(fs) + rest| < TWO_16 && !HasTag(fs, tag)
    requires var step := ScanStep(EncodeAll(fs) + rest, tag, |EncodeAll(fs)|);
             step.Advance? && step.offset == |EncodeAll(fs[..k])|
    ensures ScanRun(EncodeAll(fs) + rest, tag, |EncodeAll(fs)|, fuel).Unfinished?
    decreases fuel
  {
    hide EncodeAll, ScanStep, ScanRun, HasTag, ValidFields;
    var data, end, back, turns := EncodeAll(fs) + rest, |EncodeAll(fs)|, |EncodeAll(fs[..k])|, |fs| - k;
    NoTurn(data, tag, end);
    if fuel > 0 {
      NextTurn(data, tag, end, fuel - 1);
      if turns < fuel {
        ScanPasses(fs, k, rest, tag, fuel - 1 - turns);
        GoesRound(fs, k, rest, tag, fuel - 1 - turns);
      } else {
        ScanPasses(fs, k, rest, tag, 0);
        if !ScanRun(data, tag, back, fuel - 1).Unfinished? {
          ScanIsStable(data, tag, back, fuel - 1, turns);
        }
      }
    }
  }

  /** Where the turn after the fields, if it is no match, leads back to the start of a field or to
      where it was: the scan returns if and only if that turn is a match or a field has the tag. */
  lemma {:induction false} GoesBackIff(fs: seq<Field>, k: nat, rest: seq<uint8>, tag: uint16)
    requires ValidFields(fs) && k <= |fs| && |EncodeAll(fs)| < |EncodeAll(fs) + rest| < TWO_16
    requires var step := ScanStep(EncodeAll(fs) + rest, tag, |EncodeAll(fs)|);
             !step.Overrun? && (step.Advance? ==> step.offset == |EncodeAll(fs[..k])|)
    ensures Halts(EncodeAll(fs) + rest, tag, 0)
       <==> HasTag(fs, tag) || ScanStep(EncodeAll(fs) + rest, tag, |EncodeAll(fs)|).Match?
  {
    hide EncodeAll, ScanStep, ScanRun, HasTag, ValidFields;
    if HasTag(fs, tag) {
      ScanStops(fs, rest, tag, 0);
    } else if ScanStep(EncodeAll(fs) + rest, tag, |EncodeAll(fs)|).Match? {
      MatchReturns(fs, rest, tag);
    } else {
      forall fuel: nat ensures ScanRun(EncodeAll(fs) + rest, tag, 0, fuel).Unfinished? {
        NeverReturns(fs, k, rest, tag, fuel);
      }
    }
  }

  lemma {:induction false} NothingBefore(fs: seq<Field>)
    ensures |EncodeAll(fs[..0])| == 0
  {
  }

  lemma {:induction false} MatchReturns(fs: seq<Field>, rest: seq<uint8>, tag: uint16)
    requires ValidFields(fs) && |EncodeAll(fs)| < |EncodeAll(fs) + rest| < TWO_16 && !HasTag(fs, tag)
    requires ScanStep(EncodeAll(fs) + rest, tag, |EncodeAll(fs)|).Match?
    ensures ScanRun(EncodeAll(fs) + rest, tag, 0, |fs| + 1).Found?
  {
    hide EncodeAll, ScanStep, ScanRun, HasTag, ValidFields;
    NothingBefore(fs);
    ScanPasses(fs, 0, rest, tag, 1);
    NextTurn(EncodeAll(fs) + rest, tag, |EncodeAll(fs)|, 0);
  }

  lemma {:induction false} NeverReturns(fs: seq<Field>, k: nat, rest: seq<uint8>, tag: uint16, fuel: nat)
    requires ValidFields(fs) && k <= |fs| && |EncodeAll(fs)| < |EncodeAll(fs) + rest| < TWO_16 && !HasTag(fs, tag)
    requires var step := ScanStep(EncodeAll(fs) + rest, tag, |EncodeAll(fs)|);
             step.Advance? && step.offset == |EncodeAll(fs[..k])|
    ensures ScanRun(EncodeAll(fs) + rest, tag, 0, fuel).Unfinished?
  {
    hide EncodeAll, ScanStep, ScanRun, HasTag, ValidFields;
    NothingBefore(fs);
    ScanPasses(fs, 0, rest, tag, fuel);
    GoesRound(fs, k, rest, tag, fuel);
    if !ScanRun(EncodeAll(fs) + rest, tag, 0, fuel).Unfinished? {
      ScanIsStable(EncodeAll(fs) + rest, tag, 0, fuel, |fs| + fuel);
    }
  }

  // ---------- Any bytes: how long to wait for the scan ----------

  /** The offsets of an unfinished scan. */
  function Trail(data: seq<uint8>, tag: uint16, offset: uint16, turns: nat): (offsets: seq<uint16>)
    requires |data| < TWO_16 && ScanRun(data, tag, offset, turns).Unfinished?
    ensures |offsets| == turns + 1 && offsets[0] == offset
    decreases turns
  {
    [offset] + if turns == 0 then [] else Trail(data, tag, ScanStep(data, tag, offset).offset, turns - 1)
  }

  lemma {:induction false} TrailAt(data: seq<uint8>, tag: uint16, offset: uint16, turns: nat, i: nat, more: nat)
    requires |data| < TWO_16 && ScanRun(data, tag, offset, turns).Unfinished? && i <= turns
    ensures Trail(data, tag, offset, turns)[i] < |data|
    ensures ScanRun(data, tag, offset, i + more) == ScanRun(data, tag, Trail(data, tag, offset, turns)[i], more)
    decreases i
  {
    hide ScanStep;
    if i > 0 {
      TrailAt(data, tag, ScanStep(data, tag, offset).offset, turns - 1, i - 1, more);
    }
  }

  lemma {:induction false} Cycle(data: seq<uint8>, tag: uint16, offset: uint16, turns: nat, i: nat, j: nat, fuel: nat)
    requires |data| < TWO_16 && ScanRun(data, tag, offset, turns).Unfinished? && i < j <= turns
    requires Trail(data, tag, offset, turns)[i] == Trail(data, tag, offset, turns)[j]
    ensures ScanRun(data, tag, offset, i + fuel).Unfinished?
    decreases fuel
  {
    hide ScanRun, Trail;
    if i + fuel <= turns {
      if !ScanRun(data, tag, offset, i + fuel).Unfinished? {
        ScanIsStable(data, tag, offset, i + fuel, turns);
      }
    } else {
      var less := i + fuel - j;
      TrailAt(data, tag, offset, turns, i, less);
      TrailAt(data, tag, offset, turns, j, less);
      Cycle(data, tag, offset, turns, i, j, less);
    }
  }

  /** On any bytes the scan finishes, one way or another, within as many turns as there are bytes,
      or never. */
  lemma {:induction false} FinishedInTime(data: seq<uint8>, tag: uint16, offset: uint16, fuel: nat)
    requires |data| < TWO_16 && !ScanRun(data, tag, offset, fuel).Unfinished?
    ensures ScanRun(data, tag, offset, |data|) == ScanRun(data, tag, offset, fuel)
  {
    hide ScanRun, Trail;
    if !ScanRun(data, tag, offset, |data|).Unfinished? {
      if fuel <= |data| {
        ScanIsStable(data, tag, offset, fuel, |data|);
      } else {
        ScanIsStable(data, tag, offset, |data|, fuel);
      }
    } else {
      var trail := Trail(data, tag, offset, |data|);
      forall i | 0 <= i <= |data| ensures trail[i] < |data| {
        TrailAt(data, tag, offset, |data|, i, 0);
      }
      var i, j := Pigeonhole(trail, |data|);
      Cycle(data, tag, offset, |data|, i, j, fuel);
      ScanIsStable(data, tag, offset, fuel, i + fuel);
    }
  }

  /** So, for any bytes and any tag, the scan returns if and only if it has returned within as many
      turns as there are bytes. */
  lemma {:induction false} HaltsIffInTime(data: seq<uint8>, tag: uint16)
    requires |data| < TWO_16
    ensures Halts(data, tag, 0)
       <==> (ScanRun(data, tag, 0, |data|).Found? || ScanRun(data, tag, 0, |data|).NotFound?)
  {
    hide ScanRun;
    if Halts(data, tag, 0) {
      var fuel: nat :| ScanRun(data, tag, 0, fuel).Found? || ScanRun(data, tag, 0, fuel).NotFound?;
      FinishedInTime(data, tag, 0, fuel);
    }
  }
}
