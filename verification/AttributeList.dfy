/** The media attribute lists of apps/sink/sink_avrcp_browsing.c (AVRCP 1.5, section 6.10.4.3):
    an id, a character set, a length, and that many bytes of text, all big-endian. */
module AttributeList {
  import opened Ints
  import opened Seqs

  type Bytes = seq<uint8>

  /** AVRCP_BROWSE_GET_ITEM_ATTRIBUTES_CFM_HEADER_SIZE */
  const ATTRIBUTE_HEADER_SIZE := 8

  datatype Attribute = Attribute(id: uint32, charset: uint16, value: Bytes)

  // ---------- Big-endian numbers ----------

  function Write16(n: uint16): Bytes {
    [n / 0x100, n % 0x100]
  }

  function Write32(n: uint32): Bytes {
    Write16(n / TWO_16) + Write16(n % TWO_16)
  }

  function Read16(b: Bytes, i: nat): uint16
    requires i + 2 <= |b|
  {
    var high: int := b[i];
    high * 0x100 + b[i + 1]
  }

  function Read32(b: Bytes, i: nat): uint32
    requires i + 4 <= |b|
  {
    TWO_16 * Read16(b, i) + Read16(b, i + 2)
  }

  lemma {:induction false} Read16Written(before: Bytes, n: uint16, after: Bytes)
    ensures |Write16(n)| == 2 && Read16(before + Write16(n) + after, |before|) == n
  {
  }

  lemma {:induction false} Read32Written(before: Bytes, n: uint32, after: Bytes)
    ensures |Write32(n)| == 4 && Read32(before + Write32(n) + after, |before|) == n
  {
  }

  /** Only the bytes under the number matter. */
  lemma {:induction false} ReadSlice(b: Bytes, i: nat, lo: nat, hi: nat)
    requires lo <= hi <= |b|
    ensures i + 2 <= hi - lo ==> Read16(b[lo..hi], i) == Read16(b, lo + i)
    ensures i + 4 <= hi - lo ==> Read32(b[lo..hi], i) == Read32(b, lo + i)
  {
  }

  // ---------- Writing lists ----------

  predicate Valid(a: Attribute) {
    |a.value| < TWO_16
  }

  predicate AllValid(attributes: seq<Attribute>) {
    forall i :: 0 <= i < |attributes| ==> Valid(attributes[i])
  }

  function Header(a: Attribute): Bytes
    requires Valid(a)
  {
    Write32(a.id) + Write16(a.charset) + Write16(|a.value|)
  }

  function Encode(a: Attribute): Bytes
    requires Valid(a)
  {
    Header(a) + a.value
  }

  function EncodeAll(attributes: seq<Attribute>): Bytes
    requires AllValid(attributes)
  {
    if attributes == [] then [] else Encode(attributes[0]) + EncodeAll(attributes[1..])
  }

  // ---------- Reading lists ----------

  /** The attribute at the start of `b`, its text clipped to what is there. */
  function First(b: Bytes): Attribute
    requires ATTRIBUTE_HEADER_SIZE <= |b|
  {
    var end := ATTRIBUTE_HEADER_SIZE + Read16(b, 6);
    Attribute(Read32(b, 0), Read16(b, 4), b[ATTRIBUTE_HEADER_SIZE..if end > |b| then |b| else end])
  }

  /** What the loop reads from any bytes, up to the first header that does not fit. */
  function AttributesOf(b: Bytes): seq<Attribute> {
    if |b| < ATTRIBUTE_HEADER_SIZE then []
    else [First(b)] + AttributesOf(b[ATTRIBUTE_HEADER_SIZE + |First(b).value|..])
  }

  /** No attribute lies whole at the start of `b`. */
  predicate NoneWhole(b: Bytes) {
    |b| < ATTRIBUTE_HEADER_SIZE || ATTRIBUTE_HEADER_SIZE + Read16(b, 6) > |b|
  }

  /** The attributes that lie whole in `b`, one after the other from its start. */
  function WholeOf(b: Bytes): seq<Attribute> {
    if NoneWhole(b) then [] else [First(b)] + WholeOf(b[ATTRIBUTE_HEADER_SIZE + |First(b).value|..])
  }

  lemma {:induction false} HeaderRead(a: Attribute, rest: Bytes)
    requires Valid(a)
    ensures |Header(a)| == ATTRIBUTE_HEADER_SIZE
    ensures var b := Header(a) + rest;
            Read32(b, 0) == a.id && Read16(b, 4) == a.charset && Read16(b, 6) == |a.value|
  {
    var id, charset, length := Write32(a.id), Write16(a.charset), Write16(|a.value|);
    Read32Written([], a.id, charset + length + rest);
    Read16Written(id, a.charset, length + rest);
    Read16Written(id + charset, |a.value|, rest);
    assert Header(a) + rest == [] + id + (charset + length + rest) == id + charset + (length + rest)
        == id + charset + length + rest;
  }

  lemma {:induction false} FirstEncoded(a: Attribute, rest: Bytes)
    requires Valid(a)
    ensures |Encode(a)| == ATTRIBUTE_HEADER_SIZE + |a.value|
    ensures First(Encode(a) + rest) == a && !NoneWhole(Encode(a) + rest)
    ensures (Encode(a) + rest)[ATTRIBUTE_HEADER_SIZE + |a.value|..] == rest
  {
    hide Header, Read16, Read32;
    HeaderRead(a, a.value + rest);
    assert Encode(a) + rest == Header(a) + (a.value + rest);
  }

  lemma {:induction false} WriteRead(b: Bytes, i: nat)
    requires i + 2 <= |b|
    ensures Write16(Read16(b, i)) == b[i..i + 2]
  {
  }

  lemma {:induction false} WriteRead32(b: Bytes, i: nat)
    requires i + 4 <= |b|
    ensures Write32(Read32(b, i)) == b[i..i + 4]
  {
    WriteRead(b, i);
    WriteRead(b, i + 2);
    hide Write16, Read16;
    var n := Read32(b, i);
    assert n / TWO_16 == Read16(b, i) && n % TWO_16 == Read16(b, i + 2);
    assert b[i..i + 4] == b[i..i + 2] + b[i + 2..i + 4];
  }

  /** A header is what is read from its bytes. */
  lemma {:induction false} HeaderWritten(b: Bytes, a: Attribute)
    requires |b| >= ATTRIBUTE_HEADER_SIZE && Valid(a)
    requires a.id == Read32(b, 0) && a.charset == Read16(b, 4) && |a.value| == Read16(b, 6)
    ensures Header(a) == b[..ATTRIBUTE_HEADER_SIZE]
  {
    hide Write16, Read16, Write32, Read32;
    WriteRead32(b, 0);
    WriteRead(b, 4);
    WriteRead(b, 6);
    assert b[..ATTRIBUTE_HEADER_SIZE] == b[0..4] + b[4..6] + b[6..8];
  }

  /** A whole attribute is the encoding of what is read from it. */
  lemma {:induction false} FirstIsEncoded(b: Bytes)
    requires !NoneWhole(b)
    ensures var a := First(b); Valid(a) && b == Encode(a) + b[ATTRIBUTE_HEADER_SIZE + |a.value|..]
  {
    hide Header, Read16, Read32;
    HeaderWritten(b, First(b));
  }

  /** Every attribute list is read back, whatever follows it. */
  lemma {:induction false} ListReadBack(attributes: seq<Attribute>, rest: Bytes)
    requires AllValid(attributes)
    ensures AttributesOf(EncodeAll(attributes) + rest) == attributes + AttributesOf(rest)
  {
    hide First, Encode;
    if attributes == [] {
      assert EncodeAll(attributes) + rest == rest;
    } else {
      var tail := EncodeAll(attributes[1..]) + rest;
      assert EncodeAll(attributes) + rest == Encode(attributes[0]) + tail;
      FirstEncoded(attributes[0], tail);
      ListReadBack(attributes[1..], rest);
    }
  }

  lemma {:induction false} WholeAndRest(b: Bytes) returns (rest: Bytes)
    ensures AllValid(WholeOf(b)) && b == EncodeAll(WholeOf(b)) + rest && NoneWhole(rest)
  {
    hide First, Encode, NoneWhole, Valid;
    if NoneWhole(b) {
      rest := b;
      assert EncodeAll([]) + b == b;
    } else {
      WholeIsLong(b);
      FirstIsEncoded(b);
      var after := b[ATTRIBUTE_HEADER_SIZE + |First(b).value|..];
      rest := WholeAndRest(after);
      assert EncodeAll(WholeOf(b)) + rest == Encode(First(b)) + (EncodeAll(WholeOf(after)) + rest);
    }
  }

  lemma {:induction false} WholeIsLong(b: Bytes)
    requires !NoneWhole(b)
    ensures |b| >= ATTRIBUTE_HEADER_SIZE && ATTRIBUTE_HEADER_SIZE + |First(b).value| <= |b|
    ensures Valid(First(b))
  {
  }

  lemma {:induction false} TruncatedRead(rest: Bytes)
    requires NoneWhole(rest)
    ensures AttributesOf(rest) ==
              if |rest| < ATTRIBUTE_HEADER_SIZE then []
              else [Attribute(Read32(rest, 0), Read16(rest, 4), rest[ATTRIBUTE_HEADER_SIZE..])]
  {
    hide Read16, Read32;
    if |rest| >= ATTRIBUTE_HEADER_SIZE {
      assert First(rest).value == rest[ATTRIBUTE_HEADER_SIZE..];
      assert rest[ATTRIBUTE_HEADER_SIZE + |First(rest).value|..] == [];
      assert AttributesOf([]) == [];
    }
  }

  /** Any bytes at all are the encoding of some whole attributes and a rest in which none is
      whole; the loop yields exactly those, in order, and then the truncated attribute if the
      rest has room for a header, its text being all that is left. */
  lemma {:induction false} AnyBytes(b: Bytes) returns (rest: Bytes)
    ensures AllValid(WholeOf(b)) && b == EncodeAll(WholeOf(b)) + rest && NoneWhole(rest)
    ensures AttributesOf(b) == WholeOf(b) +
              if |rest| < ATTRIBUTE_HEADER_SIZE then []
              else [Attribute(Read32(rest, 0), Read16(rest, 4), rest[ATTRIBUTE_HEADER_SIZE..])]
  {
    rest := WholeAndRest(b);
    hide AttributesOf, WholeOf, EncodeAll, Read16, Read32, NoneWhole, AllValid;
    ListReadBack(WholeOf(b), rest);
    TruncatedRead(rest);
  }

  // ---------- The loop of sinkAvrcpBrowsingGetItemAttributesCfm ----------

  function NonEmpty(attributes: seq<Attribute>): seq<Attribute> {
    if attributes == [] then []
    else
      var last := attributes[|attributes| - 1];
      NonEmpty(attributes[..|attributes| - 1]) + if last.value == [] then [] else [last]
  }

  /** The last offset that, with one more header, still fits in 16 bits. */
  const MAX_OFFSET := TWO_16 - 1 - ATTRIBUTE_HEADER_SIZE

  /** Where the attribute at `i` ends, clipped to the list. */
  function AttributeEnd(list: Bytes, i: nat): (end: nat)
    requires i + ATTRIBUTE_HEADER_SIZE <= |list|
    ensures i + ATTRIBUTE_HEADER_SIZE <= end <= |list|
  {
    var end := i + ATTRIBUTE_HEADER_SIZE + Read16(list, i + 6);
    if end > |list| then |list| else end
  }

  /** The offset after the last attribute from `i`. */
  function ListEnd(list: Bytes, i: nat): (end: nat)
    requires i <= |list|
    ensures i <= end <= |list| < end + ATTRIBUTE_HEADER_SIZE
    decreases |list| - i
  {
    if i + ATTRIBUTE_HEADER_SIZE > |list| then i else ListEnd(list, AttributeEnd(list, i))
  }

  /** Displays the attributes of a list of `source`, of which `announced` bytes are said to be
      the list, where the list's last attribute ends soon enough for one more 16-bit header. */
  method GetItemAttributesCfm(source: Bytes, announced: uint16) returns (displayed: seq<Attribute>)
    requires |source| < TWO_16
    requires ListEnd(source[..if |source| < announced then |source| else announced], 0) <= MAX_OFFSET
    ensures var size := if |source| < announced then |source| else announced;
            displayed == NonEmpty(AttributesOf(source[..size]))
  {
    hide Read16, Read32, AttributesOf, First, Walked, NonEmpty, ListEnd;
    var size: uint16 := if |source| < announced then |source| else announced;
    ghost var read: seq<Attribute> := [];
    displayed := [];
    var i: uint16 := 0;
    var headerEnd: uint16 := ATTRIBUTE_HEADER_SIZE;
    WalkStarts(source[..size]);
    while size >= headerEnd
      invariant i <= size && headerEnd == i + ATTRIBUTE_HEADER_SIZE
      invariant Walked(source[..size], i, read) && displayed == NonEmpty(read)
      decreases size - i
    {
      var attribute;
      attribute, i, headerEnd := OneAttribute(source, i, headerEnd, size, read);
      NonEmptyAppend(read, attribute);
      if |attribute.value| > 0 {
        displayed := displayed + [attribute];
      }
      read := read + [attribute];
    }
    WalkEnds(source[..size], i, read);
  }

  /** One turn of the loop: the attribute at `i`, clipped to the list, and where the next begins. */
  method OneAttribute(source: Bytes, i: uint16, headerEnd: uint16, size: uint16, ghost read: seq<Attribute>)
    returns (attribute: Attribute, next: uint16, nextHeaderEnd: uint16)
    requires headerEnd == i + ATTRIBUTE_HEADER_SIZE <= size <= |source|
    requires Walked(source[..size], i, read)
    ensures i < next <= size && nextHeaderEnd == next + ATTRIBUTE_HEADER_SIZE
    ensures Walked(source[..size], next, read + [attribute])
  {
    hide Read16, Read32, AttributesOf, First, Walked;
    var id, charset, length := Read32(source, i), Read16(source, i + 4), Read16(source, i + 6);
    if length + headerEnd > size {
      length := size - headerEnd;
    }
    FirstAt(source, i, size);
    WalkOn(source[..size], i, read);
    attribute := Attribute(id, charset, source[headerEnd..headerEnd + length]);
    next := headerEnd + length;
    nextHeaderEnd := (next + ATTRIBUTE_HEADER_SIZE) % TWO_16;
  }

  /** The loop has read these attributes of the list and is at offset `i`, short of the end. */
  predicate Walked(list: Bytes, i: nat, read: seq<Attribute>) {
    && i <= |list| && AttributesOf(list) == read + AttributesOf(list[i..])
    && ListEnd(list, i) <= MAX_OFFSET
  }

  lemma {:induction false} WalkStarts(list: Bytes)
    requires ListEnd(list, 0) <= MAX_OFFSET
    ensures Walked(list, 0, []) && NonEmpty([]) == []
  {
    hide AttributesOf, ListEnd;
    assert list[0..] == list;
  }

  lemma {:induction false} WalkOn(list: Bytes, i: nat, read: seq<Attribute>)
    requires Walked(list, i, read) && i + ATTRIBUTE_HEADER_SIZE <= |list|
    ensures var a := First(list[i..]);
            var next := i + ATTRIBUTE_HEADER_SIZE + |a.value|;
            next <= MAX_OFFSET && Walked(list, next, read + [a])
  {
    hide AttributesOf, First, AttributeEnd, ListEnd;
    NextAttribute(list, i);
    EndFromNext(list, i);
    var a := First(list[i..]);
    AppendAssociates(read, [a], AttributesOf(list[AttributeEnd(list, i)..]));
  }

  lemma {:induction false} EndFromNext(list: Bytes, i: nat)
    requires i + ATTRIBUTE_HEADER_SIZE <= |list|
    ensures ListEnd(list, i) == ListEnd(list, AttributeEnd(list, i))
  {
    hide AttributeEnd;
  }

  lemma {:induction false} WalkEnds(list: Bytes, i: nat, read: seq<Attribute>)
    requires Walked(list, i, read) && |list| < i + ATTRIBUTE_HEADER_SIZE
    ensures AttributesOf(list) == read
  {
    NoAttribute(list[i..]);
    assert read + [] == read;
  }

  lemma {:induction false} NextAttribute(list: Bytes, i: nat)
    requires i + ATTRIBUTE_HEADER_SIZE <= |list|
    ensures var a := First(list[i..]);
            && i + ATTRIBUTE_HEADER_SIZE + |a.value| == AttributeEnd(list, i)
            && AttributesOf(list[i..]) == [a] + AttributesOf(list[i + ATTRIBUTE_HEADER_SIZE + |a.value|..])
  {
    var a := First(list[i..]);
    assert list[..|list|] == list;
    FirstAt(list, i, |list|);
    assert list[i..][ATTRIBUTE_HEADER_SIZE + |a.value|..] == list[i + ATTRIBUTE_HEADER_SIZE + |a.value|..];
  }

  lemma {:induction false} NoAttribute(b: Bytes)
    requires |b| < ATTRIBUTE_HEADER_SIZE
    ensures AttributesOf(b) == []
  {
  }

  lemma {:induction false} FirstAt(source: Bytes, i: nat, size: nat)
    requires i + ATTRIBUTE_HEADER_SIZE <= size <= |source|
    ensures var length := Read16(source, i + 6);
            var start := i + ATTRIBUTE_HEADER_SIZE;
            First(source[..size][i..])
              == Attribute(Read32(source, i), Read16(source, i + 4),
                           source[start..if length + start > size then size else start + length])
  {
    hide Read16, Read32;
    assert source[..size][i..] == source[i..size];
    ReadSlice(source, 0, i, size);
    ReadSlice(source, 4, i, size);
    ReadSlice(source, 6, i, size);
    var start := i + ATTRIBUTE_HEADER_SIZE;
    var length := Read16(source, i + 6);
    var end := if length + start > size then size else start + length;
    SliceOfSlice(source, i, size, ATTRIBUTE_HEADER_SIZE, end - i);
  }

  lemma {:induction false} NonEmptyAppend(attributes: seq<Attribute>, a: Attribute)
    ensures NonEmpty(attributes + [a]) == NonEmpty(attributes) + if a.value == [] then [] else [a]
  {
    assert (attributes + [a])[..|attributes|] == attributes;
  }

  // ---------- The loop on arbitrary lists ----------

  /** What becomes of a loop that is cut off after some number of turns: its test ends it, it takes
      a header that is not inside the list, or neither yet. */
  datatype Loop = Stopped | Outside | Unfinished

  /** The outcome of the loop at offset `i`, cut off after `turns` turns. */
  function LoopRun(list: Bytes, i: uint16, turns: nat): Loop
    requires |list| < TWO_16
    decreases turns
  {
    if |list| < (i + ATTRIBUTE_HEADER_SIZE) % TWO_16 then Stopped
    else if |list| < i + ATTRIBUTE_HEADER_SIZE then Outside
    else if turns == 0 then Unfinished
    else LoopRun(list, AttributeEnd(list, i), turns - 1)
  }

  lemma {:induction false} LoopRunsToEnd(list: Bytes, i: nat, turns: nat)
    requires i <= |list| < TWO_16 && i + turns >= |list|
    ensures LoopRun(list, i, turns) == if ListEnd(list, i) <= MAX_OFFSET then Stopped else Outside
    decreases turns
  {
    hide Read16;
    if i + ATTRIBUTE_HEADER_SIZE <= |list| {
      LoopRunsToEnd(list, AttributeEnd(list, i), turns - 1);
    }
  }

  /** For every list: within as many turns as bytes, the loop stops inside the list if and only if
      the last attribute ends at offset 65527 or before; otherwise its wrapped test takes it
      outside. */
  lemma {:induction false} LoopStopsIff(list: Bytes)
    requires |list| < TWO_16
    ensures LoopRun(list, 0, |list|) == if ListEnd(list, 0) <= MAX_OFFSET then Stopped else Outside
    ensures ListEnd(list, 0) <= MAX_OFFSET <==> exists turns: nat :: LoopRun(list, 0, turns) == Stopped
  {
    LoopRunsToEnd(list, 0, |list|);
    if exists turns: nat :: LoopRun(list, 0, turns) == Stopped {
      var turns: nat :| LoopRun(list, 0, turns) == Stopped;
      FinishedStays(list, 0, turns, |list|);
    }
  }

  lemma {:induction false} FinishedStays(list: Bytes, i: uint16, a: nat, b: nat)
    requires |list| < TWO_16 && LoopRun(list, i, a) != Unfinished && LoopRun(list, i, b) != Unfinished
    ensures LoopRun(list, i, a) == LoopRun(list, i, b)
    decreases a
  {
    if i + ATTRIBUTE_HEADER_SIZE <= |list| {
      FinishedStays(list, AttributeEnd(list, i), a - 1, b - 1);
    }
  }
}
