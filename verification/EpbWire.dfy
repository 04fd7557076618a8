/** The wire format of the embedded protocol buffer codec (apps/sink/epb.c): the bytes a
    list of fields is written as, and what the tag scan makes of an arbitrary buffer. */
module EpbWire {
  import opened Ints

  /** What the scan and the getters return for "not there": -1 through a uint16. */
  const FAILURE: uint16 := 0xFFFF

  // ---------- Writing ----------

  /** One field of a message, by the setter that writes it. */
  datatype Field =
    | VarintField(tag: uint16, value: uint32)
    | Fixed32Field(tag: uint16, value: uint32)
    | BytesField(tag: uint16, data: seq<uint8>)

  function TagBytes(tag: uint16): seq<uint8> {
    if tag < 0x100 then [tag] else [tag / 0x100, tag % 0x100]
  }

  /** Base 128 varint, least significant group first. */
  function VarintBytes(v: nat): seq<uint8> {
    if v < 0x80 then [v] else [v % 0x80 + 0x80] + VarintBytes(v / 0x80)
  }

  function Fixed32Bytes(v: uint32): seq<uint8> {
    [v % 0x100, v / 0x100 % 0x100, v / 0x100 / 0x100 % 0x100, v / 0x100 / 0x100 / 0x100]
  }

  function Payload(f: Field): seq<uint8> {
    match f
    case VarintField(_, v) => VarintBytes(v)
    case Fixed32Field(_, v) => Fixed32Bytes(v)
    case BytesField(_, d) => VarintBytes(|d|) + d
  }

  function Encode(f: Field): seq<uint8> {
    TagBytes(f.tag) + Payload(f)
  }

  function EncodeAll(fs: seq<Field>): seq<uint8> {
    if fs == [] then [] else Encode(fs[0]) + EncodeAll(fs[1..])
  }

  function WireTypeOf(f: Field): nat {
    match f
    case VarintField(_, _) => 0
    case Fixed32Field(_, _) => 5
    case BytesField(_, _) => 2
  }

  /** A one-byte tag below 0x80, or a two-byte tag whose first byte alone carries the
      continuation bit; in both cases the low three bits of the first byte match the setter. */
  predicate ValidTag(tag: uint16, wireType: nat) {
    || (tag < 0x80 && tag % 8 == wireType)
    || (0x8000 <= tag && tag % 0x100 < 0x80 && tag / 0x100 % 8 == wireType)
  }

  predicate ValidField(f: Field) {
    && ValidTag(f.tag, WireTypeOf(f))
    && (f.BytesField? ==> |f.data| < TWO_16)
  }

  predicate ValidFields(fs: seq<Field>) {
    forall i :: 0 <= i < |fs| ==> ValidField(fs[i])
  }

  // ---------- Reading an arbitrary buffer ----------

  /** What epb_get_varint32_bits leaves behind: bytes consumed and value, or -1 when the
      buffer ends inside the varint. */
  datatype Varint = Complete(size: nat, value: uint32) | Truncated

  function Pow128(k: nat): nat {
    if k == 0 then 1 else 0x80 * Pow128(k - 1)
  }

  /** The group of seven bits at offset k of a varint, shifted into a uint32. */
  function Group(b: uint8, k: nat): (g: uint32) {
    b % 0x80 * Pow128(k) % TWO_32
  }

  /** The varint loop after k bytes. `acc` holds the groups read so far, which occupy lower
      bits than the next group, so the C's bitwise or is a sum. */
  function VarintFrom(data: seq<uint8>, start: nat, k: nat, acc: nat): (r: Varint)
    requires 1 <= k && start + k <= |data|
    ensures r.Complete? ==> k <= r.size && start + r.size <= |data|
    decreases |data| - start - k
  {
    if data[start + k - 1] < 0x80 then Complete(k, acc % TWO_32)
    else if start + k >= |data| then Truncated
    else if k >= 5 then Complete(k, acc % TWO_32)
    else VarintFrom(data, start, k + 1, acc + Group(data[start + k], k))
  }

  function VarintAt(data: seq<uint8>, start: nat): Varint
    requires start < |data|
  {
    VarintFrom(data, start, 1, data[start] % 0x80)
  }

  function LittleEndian(b0: int, b1: int, b2: int, b3: int): int {
    b0 + b1 * 0x100 + b2 * 0x1_0000 + b3 * 0x100_0000
  }

  /** epb_get_fixed32_bits: little-endian, 0 when fewer than four bytes are left. */
  function Fixed32At(data: seq<uint8>, start: nat): uint32 {
    if start + 4 > |data| then 0
    else LittleEndian(data[start], data[start + 1], data[start + 2], data[start + 3])
  }

  /** A tag read from the buffer: its value in a uint32 and the offset after it. */
  function ReadTag(data: seq<uint8>, offset: nat, acc: nat): (r: (uint32, nat))
    requires 1 <= offset <= |data|
    ensures offset <= r.1 <= |data|
    decreases |data| - offset
  {
    if data[offset - 1] >= 0x80 && offset < |data| then
      ReadTag(data, offset + 1, (acc * 0x100 + data[offset] % 0x80) % TWO_32)
    else
      (acc % TWO_32, offset)
  }

  /** epb_get_wire_type on a tag truncated to uint16. */
  function WireType(tag: uint32): nat {
    var t := tag % TWO_16;
    if t / 0x100 != 0 then t / 0x100 % 8 else t % 8
  }

  /** The offset after the varint whose bytes start at `offset`, for the skip loop. */
  function SkipVarint(data: seq<uint8>, offset: nat): (o: nat)
    requires offset < |data|
    ensures offset < o <= |data|
    decreases |data| - offset
  {
    if data[offset] >= 0x80 && offset + 1 < |data| then SkipVarint(data, offset + 1) else offset + 1
  }

  datatype Skip = SkipBy(ret: uint16) | SkipOverrun

  /** epb_get_value_length: the value's size, -1 as 0xFFFF for an unknown wire type or a
      truncated length, all arithmetic modulo 2^16. It reads the first value byte of a
      varint or length without checking that the buffer still holds one. */
  function ValueLength(data: seq<uint8>, offset: nat, wireType: nat): Skip
    requires offset <= |data| < TWO_16
  {
    match wireType
    case 0 => if offset < |data| then SkipBy(SkipVarint(data, offset) - offset) else SkipOverrun
    case 1 => SkipBy(8)
    case 2 =>
      if offset < |data| then
        match VarintAt(data, offset)
        case Complete(n, l) => SkipBy((n + l) % TWO_16)
        case Truncated => SkipBy(FAILURE)
      else SkipOverrun
    case 5 => SkipBy(4)
    case _ => SkipBy(FAILURE)
  }

  /** One turn of the scan loop of epb_get_tag_value_offset. */
  datatype Step = Match(offset: uint16) | Advance(offset: uint16) | Overrun

  function ScanStep(data: seq<uint8>, tag: uint16, offset: uint16): Step
    requires offset < |data| < TWO_16
  {
    var (t, o) := ReadTag(data, offset + 1, data[offset]);
    if t == tag then Match(o)
    else match ValueLength(data, o, WireType(t))
      case SkipBy(ret) => Advance((o + ret) % TWO_16)
      case SkipOverrun => Overrun
  }

  /** The outcome of the scan loop started at `offset` and cut off after `fuel` turns. */
  datatype Scan = Found(offset: uint16) | NotFound | OutOfBounds | Unfinished

  function ScanRun(data: seq<uint8>, tag: uint16, offset: uint16, fuel: nat): Scan
    requires |data| < TWO_16
    decreases fuel
  {
    if offset >= |data| then NotFound
    else if fuel == 0 then Unfinished
    else match ScanStep(data, tag, offset)
      case Match(o) => Found(o)
      case Advance(o) => ScanRun(data, tag, o, fuel - 1)
      case Overrun => OutOfBounds
  }

  /** The scan returns after some number of turns without reading outside the buffer. */
  ghost predicate Halts(data: seq<uint8>, tag: uint16, offset: uint16)
    requires |data| < TWO_16
  {
    exists fuel: nat :: ScanRun(data, tag, offset, fuel).Found? || ScanRun(data, tag, offset, fuel).NotFound?
  }
}
