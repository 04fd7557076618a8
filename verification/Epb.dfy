/** The embedded protocol buffer object of apps/sink/epb.c: setters that append to a bounded
    buffer in place, and getters that scan one. Failure is `return -1` through a uint16, so
    the source's `ret < 0` tests never hold and no setter stops at a failed step. */
module Epb {
  import opened Ints
  import opened EpbWire
  import opened EpbScan
  import opened EpbParts
  import opened EpbVarints

  /** The zigzag step of epb_set_sint32, on two's complement: shift left, then complement
      when the sign bit was set. */
  function ZigZag(value: int32): uint32 {
    var doubled := 2 * value % TWO_32;
    if value < 0 then TWO_32 - 1 - doubled else doubled
  }

  /** epb_get_sint32, with the negation taken on uint32. */
  function UnZigZag(u: uint32): int32 {
    if u % 2 == 1 then ToInt32((2 * TWO_32 - u / 2 - 1) % TWO_32) else u / 2
  }

  /** The uint32 the getter makes of the bytes at `o`; 0 when the varint is cut short. */
  function UintAt(data: seq<uint8>, o: nat): uint32
    requires o < |data|
  {
    match VarintAt(data, o)
    case Complete(_, v) => v
    case Truncated => 0
  }

  /** Start and length of the length-delimited value at `o`. */
  function BytesAt(data: seq<uint8>, o: nat): (uint16, uint16)
    requires o < |data| && VarintAt(data, o).Complete?
  {
    ((o + VarintAt(data, o).size) % TWO_16, VarintAt(data, o).value % TWO_16)
  }

  /** Bytes written at an offset extend what is before it and leave what is after it. */
  lemma {:induction false} Written(was: seq<uint8>, now: seq<uint8>, original: seq<uint8>, at: nat, chunk: seq<uint8>)
    requires |was| == |now| == |original| && at + |chunk| <= |was| && was[at..] == original[at..]
    requires forall k :: 0 <= k < at ==> now[k] == was[k]
    requires forall k :: 0 <= k < |chunk| ==> now[at + k] == chunk[k]
    requires forall k :: at + |chunk| <= k < |was| ==> now[k] == was[k]
    ensures now[..at + |chunk|] == was[..at] + chunk
    ensures now[at + |chunk|..] == original[at + |chunk|..]
  {
    forall k | at + |chunk| <= k < |was| ensures now[k] == original[k] {
      assert was[at..][k - at] == original[at..][k - at];
    }
  }

  class Packer {
    var packBuf: array<uint8>
    var bufLen: uint16
    var bufOffset: uint16
    ghost const original: seq<uint8>  // the buffer as it was handed over

    /** Nothing at or past the write position was touched. */
    ghost predicate Valid()
      reads this, packBuf
    {
      && bufOffset <= bufLen <= packBuf.Length
      && |original| == packBuf.Length
      && packBuf[bufOffset..] == original[bufOffset..]
    }

    ghost function Contents(): (s: seq<uint8>)
      reads this, packBuf
      requires Valid()
    {
      packBuf[..bufOffset]
    }

    /** The object is still over the caller's buffer, and what was written stays. */
    twostate predicate Appended()
      reads this, packBuf
    {
      && Valid() && old(Valid())
      && packBuf == old(packBuf) && bufLen == old(bufLen)
      && old(Contents()) <= Contents()
    }

    /** epb_pack_init */
    constructor (buf: array<uint8>, len: uint16)
      requires len <= buf.Length
      ensures Valid() && packBuf == buf && bufLen == len && Contents() == []
      ensures original == buf[..]
    {
      packBuf, bufLen, bufOffset, original := buf, len, 0, buf[..];
    }

    /** memcpy to the write position when it fits. */
    method Append(chunk: seq<uint8>) returns (ret: uint16)
      requires Valid() && |chunk| < TWO_16
      modifies this`bufOffset, packBuf
      ensures Appended()
      ensures Contents() == AppendPart(old(Contents()), bufLen, chunk)
      ensures ret == PartReturn(old(Contents()), bufLen, chunk)
    {
      if bufLen - bufOffset >= |chunk| {
        forall k | 0 <= k < |chunk| { packBuf[bufOffset + k] := chunk[k]; }
        bufOffset := bufOffset + |chunk|;
        assert Contents() == old(Contents()) + chunk;
        return |chunk|;
      }
      return FAILURE;
    }

    /** epb_pack_tag */
    method PackTag(tag: uint16) returns (ret: uint16)
      requires Valid()
      modifies this`bufOffset, packBuf
      ensures Appended()
      ensures Contents() == AppendPart(old(Contents()), bufLen, TagBytes(tag))
      ensures ret == PartReturn(old(Contents()), bufLen, TagBytes(tag))
    {
      var tagLen := if tag / 0x100 == 0 then 1 else 2;
      if bufLen - bufOffset >= tagLen {
        var buf := bufOffset;
        if tagLen == 2 {
          packBuf[buf] := tag / 0x100;
          buf := buf + 1;
        }
        packBuf[buf] := tag % 0x100;
        bufOffset := bufOffset + tagLen;
        Written(old(packBuf[..]), packBuf[..], original, old(bufOffset), TagBytes(tag));
        return tagLen;
      }
      return FAILURE;
    }

    /** epb_pack_varint32_bits: groups of seven bits into a local buffer of five. */
    method PackVarint32Bits(value: uint32) returns (ret: uint16)
      requires Valid()
      modifies this`bufOffset, packBuf
      ensures Appended()
      ensures Contents() == AppendPart(old(Contents()), bufLen, VarintBytes(value))
      ensures ret == PartReturn(old(Contents()), bufLen, VarintBytes(value))
    {
      var buf: array<uint8> := new uint8[5];
      var i := 0;
      var v: uint32 := value;
      var more := true;
      while more
        invariant fresh(buf) && buf.Length == 5 && 0 <= i <= 5
        invariant Appended() && bufOffset == old(bufOffset) && packBuf[..] == old(packBuf[..])
        invariant i == 0 ==> v == value && more
        invariant i > 0 ==> more == (v != 0 && i < 5)
        invariant v < [TWO_32, 0x200_0000, 0x4_0000, 0x800, 0x10, 1][i]
        invariant i > 0 ==> buf[i - 1] < 0x80
        invariant i > 0 && v == 0 ==> VarintBytes(value) == buf[..i]
        invariant i > 0 && v > 0 ==> VarintBytes(value) == buf[..i - 1] + [buf[i - 1] + 0x80] + VarintBytes(v)
        decreases 5 - i, more
      {
        ghost var before := buf[..i];
        buf[i] := v % 0x80;
        if i >= 1 { buf[i - 1] := buf[i - 1] + 0x80; }
        ghost var w: uint32 := v;
        v := v / 0x80;
        i := i + 1;
        more := v != 0 && i < 5;
        assert i >= 2 ==> buf[..i - 1] == before[..i - 2] + [before[i - 2] + 0x80];
        assert VarintBytes(w) == if v == 0 then [buf[i - 1]] else [buf[i - 1] + 0x80] + VarintBytes(v);
        assert buf[..i] == buf[..i - 1] + [buf[i - 1]];
      }
      ret := Append(buf[..i]);
    }

    /** epb_set_uint32 */
    method SetUint32(tag: uint16, value: uint32) returns (len: uint16)
      requires Valid()
      modifies this`bufOffset, packBuf
      ensures Appended()
      ensures Contents() == AppendParts(old(Contents()), bufLen, Parts(VarintField(tag, value)))
      ensures len == PartsReturn(old(Contents()), bufLen, Parts(VarintField(tag, value)))
    {
      var ret := PackTag(tag);
      len := ret;
      ret := PackVarint32Bits(value);
      len := (len + ret) % TWO_16;
      TwoParts(old(Contents()), bufLen, TagBytes(tag), VarintBytes(value));
    }

    /** epb_set_int32 */
    method SetInt32(tag: uint16, value: int32) returns (len: uint16)
      requires Valid()
      modifies this`bufOffset, packBuf
      ensures Appended()
      ensures Contents() == AppendParts(old(Contents()), bufLen, Parts(VarintField(tag, ToUint32(value))))
      ensures len == PartsReturn(old(Contents()), bufLen, Parts(VarintField(tag, ToUint32(value))))
    {
      len := SetUint32(tag, ToUint32(value));
    }

    /** epb_set_sint32 */
    method SetSint32(tag: uint16, value: int32) returns (len: uint16)
      requires Valid()
      modifies this`bufOffset, packBuf
      ensures Appended()
      ensures Contents() == AppendParts(old(Contents()), bufLen, Parts(VarintField(tag, ZigZag(value))))
      ensures len == PartsReturn(old(Contents()), bufLen, Parts(VarintField(tag, ZigZag(value))))
    {
      len := SetUint32(tag, ZigZag(value));
    }

    /** epb_set_enum */
    method SetEnum(tag: uint16, value: uint16) returns (len: uint16)
      requires Valid()
      modifies this`bufOffset, packBuf
      ensures Appended()
      ensures Contents() == AppendParts(old(Contents()), bufLen, Parts(VarintField(tag, value)))
      ensures len == PartsReturn(old(Contents()), bufLen, Parts(VarintField(tag, value)))
    {
      len := SetUint32(tag, value);
    }

    /** epb_set_fixed32; epb_set_fixed32_bits copies the value little-endian. */
    method SetFixed32(tag: uint16, value: uint32) returns (len: uint16)
      requires Valid()
      modifies this`bufOffset, packBuf
      ensures Appended()
      ensures Contents() == AppendParts(old(Contents()), bufLen, Parts(Fixed32Field(tag, value)))
      ensures len == PartsReturn(old(Contents()), bufLen, Parts(Fixed32Field(tag, value)))
    {
      var ret := PackTag(tag);
      len := ret;
      ret := Append(Fixed32Bytes(value));
      len := (len + ret) % TWO_16;
      TwoParts(old(Contents()), bufLen, TagBytes(tag), Fixed32Bytes(value));
    }

    /** epb_set_bytes, and with it epb_set_string and epb_set_message. */
    method SetBytes(tag: uint16, data: seq<uint8>) returns (len: uint16)
      requires Valid() && |data| < TWO_16
      modifies this`bufOffset, packBuf
      ensures Appended()
      ensures Contents() == AppendParts(old(Contents()), bufLen, Parts(BytesField(tag, data)))
      ensures len == PartsReturn(old(Contents()), bufLen, Parts(BytesField(tag, data)))
    {
      hide AppendPart, PartReturn, AppendParts, PartsReturn, TagBytes, VarintBytes;
      var ret := PackTag(tag);
      len := ret;
      ret := PackVarint32Bits(|data|);
      len := (len + ret) % TWO_16;
      ret := Append(data);
      len := (len + ret) % TWO_16;
      ThreeParts(old(Contents()), bufLen, TagBytes(tag), VarintBytes(|data|), data);
    }
  }
  class Unpacker {
    const unpackBuf: array<uint8>
    const bufLen: uint16

    ghost predicate Valid() {
      bufLen <= unpackBuf.Length
    }

    ghost function Data(): (s: seq<uint8>)
      reads unpackBuf
      requires Valid()
      ensures |s| == bufLen
    {
      unpackBuf[..bufLen]
    }

    /** epb_unpack_init */
    constructor (buf: array<uint8>, len: uint16)
      requires len <= buf.Length
      ensures Valid() && unpackBuf == buf && bufLen == len
    {
      unpackBuf, bufLen := buf, len;
    }

    /** epb_get_varint32_bits at `start`; a varint cut short by the end of the buffer returns
        -1 and leaves the caller's variable as it was. */
    method GetVarint32Bits(start: nat, init: uint32) returns (ret: uint16, value: uint32)
      requires Valid() && start < bufLen
      ensures match VarintAt(Data(), start)
              case Complete(n, v) => ret == n && value == v
              case Truncated => ret == FAILURE && value == init
      ensures start + 5 < bufLen && Continues(Data(), start, 5) ==> ret == 5 && value == Groups(Data(), start, 5) % TWO_32
    {
      if start + 5 < bufLen && Continues(Data(), start, 5) {
        VarintCut(Data(), start);
      }
      hide Groups, Continues;
      var offset := 1;
      var pValue: nat := unpackBuf[start] % 0x80;
      while unpackBuf[start + offset - 1] >= 0x80
        invariant 1 <= offset && start + offset <= bufLen
        invariant VarintFrom(Data(), start, offset, pValue) == VarintAt(Data(), start)
        decreases bufLen - offset
      {
        if start + offset >= bufLen { return FAILURE, init; }
        if offset >= 5 { break; }
        pValue := pValue + Group(unpackBuf[start + offset], offset);
        offset := offset + 1;
      }
      return offset, pValue % TWO_32;
    }

    /** epb_get_value_length */
    method GetValueLength(start: nat, wireType: nat) returns (ret: uint16)
      requires Valid() && start <= bufLen
      requires ValueLength(Data(), start, wireType).SkipBy?
      ensures ValueLength(Data(), start, wireType) == SkipBy(ret)
    {
      var offset := 0;
      if wireType == 0 {
        offset := 1;
        while unpackBuf[start + offset - 1] >= 0x80 && start + offset < bufLen
          invariant 1 <= offset && start + offset <= bufLen
          invariant SkipVarint(Data(), start + offset - 1) == SkipVarint(Data(), start)
          decreases bufLen - offset
        {
          offset := offset + 1;
        }
      } else if wireType == 1 {
        offset := 8;
      } else if wireType == 2 {
        var n, l := GetVarint32Bits(start, 0);
        offset := (n + l) % TWO_16;
      } else if wireType == 5 {
        offset := 4;
      } else {
        return FAILURE;
      }
      return offset;
    }

    /** The tag at an offset inside the buffer, and the offset after it. */
    method GetTag(start: nat) returns (pTag: uint32, offset: uint16)
      requires Valid() && start < bufLen
      ensures (pTag, offset) == ReadTag(Data(), start + 1, Data()[start])
    {
      pTag := unpackBuf[start];
      offset := start + 1;
      while unpackBuf[offset - 1] >= 0x80 && offset < bufLen
        invariant start < offset <= bufLen
        invariant ReadTag(Data(), offset, pTag) == ReadTag(Data(), start + 1, Data()[start])
        decreases bufLen - offset
      {
        pTag := (pTag * 0x100 + unpackBuf[offset] % 0x80) % TWO_32;
        offset := offset + 1;
      }
    }

    /** epb_get_tag_value_offset, called where it returns. */
    method GetTagValueOffset(tag: uint16) returns (r: uint16)
      requires Valid() && Halts(Data(), tag, 0)
      ensures r == ScanResult(Data(), tag)
    {
      hide ScanRun, ScanResult, ValueLength, WireType, ReadTag;
      var offset: uint16 := 0;
      ghost var data := Data();
      ghost var turns: nat :| ScanRun(data, tag, 0, turns).Found? || ScanRun(data, tag, 0, turns).NotFound?;
      ghost var outcome := ScanRun(data, tag, 0, turns);
      while offset < bufLen
        invariant data == Data()
        invariant ScanRun(data, tag, offset, turns) == outcome
        decreases turns
      {
        ScanTurn(data, tag, offset, turns);
        var pTag;
        pTag, offset := GetTag(offset);
        if pTag == tag { return offset; }
        var ret := GetValueLength(offset, WireType(pTag));
        offset := (offset + ret) % TWO_16;
        turns := turns - 1;
      }
      ScanEnds(data, tag, offset, turns);
      return FAILURE;
    }

    /** epb_get_uint32 on a tag that is present, with at least one byte after it. */
    method GetUint32(tag: uint16) returns (value: uint32)
      requires Valid() && Halts(Data(), tag, 0) && ScanResult(Data(), tag) < bufLen
      ensures value == UintAt(Data(), ScanResult(Data(), tag))
    {
      var offset := GetTagValueOffset(tag);
      var _, v := GetVarint32Bits(offset, 0);
      return v;
    }

    /** epb_get_int32 */
    method GetInt32(tag: uint16) returns (value: int32)
      requires Valid() && Halts(Data(), tag, 0) && ScanResult(Data(), tag) < bufLen
      ensures value == ToInt32(UintAt(Data(), ScanResult(Data(), tag)))
    {
      var u := GetUint32(tag);
      return ToInt32(u);
    }

    /** epb_get_sint32 */
    method GetSint32(tag: uint16) returns (value: int32)
      requires Valid() && Halts(Data(), tag, 0) && ScanResult(Data(), tag) < bufLen
      ensures value == UnZigZag(UintAt(Data(), ScanResult(Data(), tag)))
    {
      var u := GetUint32(tag);
      return UnZigZag(u);
    }

    /** epb_get_enum */
    method GetEnum(tag: uint16) returns (value: uint16)
      requires Valid() && Halts(Data(), tag, 0) && ScanResult(Data(), tag) < bufLen
      ensures value == UintAt(Data(), ScanResult(Data(), tag)) % TWO_16
    {
      var u := GetUint32(tag);
      return u % TWO_16;
    }

    /** epb_get_fixed32 */
    method GetFixed32(tag: uint16) returns (value: uint32)
      requires Valid() && Halts(Data(), tag, 0) && ScanResult(Data(), tag) <= bufLen
      ensures value == Fixed32At(Data(), ScanResult(Data(), tag))
    {
      var o := GetTagValueOffset(tag);
      if bufLen - o < 4 { return 0; }
      return LittleEndian(unpackBuf[o], unpackBuf[o + 1], unpackBuf[o + 2], unpackBuf[o + 3]);
    }

    /** epb_get_bytes: a place in the buffer and a length. A length varint cut short would
        leave the C's local length unset. */
    method GetBytes(tag: uint16) returns (offset: uint16, len: uint16)
      requires Valid() && Halts(Data(), tag, 0) && ScanResult(Data(), tag) < bufLen
      requires VarintAt(Data(), ScanResult(Data(), tag)).Complete?
      ensures (offset, len) == BytesAt(Data(), ScanResult(Data(), tag))
    {
      var o := GetTagValueOffset(tag);
      var n, l := GetVarint32Bits(o, 0);
      return (o + n) % TWO_16, l % TWO_16;
    }
  }
}
