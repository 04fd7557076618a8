/** The generated message code of apps/sink/epb_MmBp.c: the size of a request is computed by
    one function and its bytes are packed by another. Optional members are an Option. */
module MmBp {
  import opened Ints
  import opened Wrappers
  import opened EpbWire
  import opened EpbScan
  import opened EpbParts
  import opened EpbRoundTrip
  import Epb

  /** At most what a uint16 length can count. */
  type Bytes = s: seq<uint8> | |s| < TWO_16 witness []

  datatype AuthRequest = AuthRequest(
    md5DeviceTypeAndDeviceId: Option<Bytes>, protoVersion: int32, authProto: int32, authMethod: uint16,
    aesSign: Option<Bytes>, macAddress: Option<Bytes>, timeZone: Option<Bytes>, language: Option<Bytes>,
    deviceName: Option<Bytes>)

  datatype InitRequest = InitRequest(respFieldFilter: Option<Bytes>, challenge: Option<Bytes>)

  datatype SendDataRequest = SendDataRequest(data: Bytes, dataType: Option<uint16>)

  // ---------- The size functions ----------

  /** The C's (value << 1) ^ (value >> 31), both shifts on uint32. */
  function SignedShift(value: uint32): uint32 {
    2 * value % TWO_32 + value / TWO_31
  }

  /** epb_varint32_pack_size */
  method VarintPackSize(tag: uint16, value: uint32, isSigned: bool) returns (size: uint16)
    ensures size == |TagBytes(tag)| + |VarintBytes(if isSigned then SignedShift(value) else value)|
  {
    var v: uint32 := if isSigned then SignedShift(value) else value;
    ghost var w := v;
    VarintSize(w);
    var i := 0;
    var more := true;
    while more
      invariant 0 <= i <= 5
      invariant v < [TWO_32, 0x200_0000, 0x4_0000, 0x800, 0x10, 1][i]
      invariant i == 0 ==> v == w && more
      invariant i > 0 ==> more == (v != 0 && i < 5)
      invariant |VarintBytes(w)| == i + if i == 0 || v > 0 then |VarintBytes(v)| else 0
      decreases 5 - i, more
    {
      v := v / 0x80;
      i := i + 1;
      more := v != 0 && i < 5;
    }
    size := (if tag / 0x100 == 0 then 1 else 2) + i;
  }

  /** epb_length_delimited_pack_size */
  method LengthDelimitedPackSize(tag: uint16, len: uint16) returns (size: uint16)
    ensures size == (|TagBytes(tag)| + |VarintBytes(len)| + len) % TWO_16
  {
    size := VarintPackSize(tag, len, false);
    size := (size + len) % TWO_16;
  }

  /** epb_fixed32_pack_size */
  method Fixed32PackSize(tag: uint16) returns (size: uint16)
    ensures forall v: uint32 :: size == |Encode(Fixed32Field(tag, v))|
  {
    size := (if tag / 0x100 == 0 then 1 else 2) + 4;
  }

  /** The signed size disagrees with the setter's zigzag, which shifts an int32 right
      arithmetically. It is right exactly for non-negative values and for a middle range of
      negative ones, where both forms take five bytes. */
  lemma {:induction false} SignedPackSizeIff(value: int32)
    ensures |VarintBytes(SignedShift(ToUint32(value)))| == |VarintBytes(Epb.ZigZag(value))|
       <==> value >= 0 || -0x7800_0000 <= value < -0x800_0000
  {
    hide VarintBytes;
    VarintSize(SignedShift(ToUint32(value)));
    VarintSize(Epb.ZigZag(value));
    if value < 0 {
      assert Epb.ZigZag(value) == -2 * value - 1;
      assert SignedShift(ToUint32(value)) == TWO_32 + 2 * value + 1;
    }
  }

  /** The value -1: the size function says five bytes, the setter writes one. */
  lemma {:induction false} SignedPackSizeOfMinusOne()
    ensures |VarintBytes(SignedShift(ToUint32(-1)))| == 5 && |VarintBytes(Epb.ZigZag(-1))| == 1
  {
    hide VarintBytes;
    VarintSize(Epb.ZigZag(-1));
    VarintSize(SignedShift(ToUint32(-1)));
  }

  // ---------- The fields of each request, in the order they are packed ----------

  function Optional(tag: uint16, d: Option<Bytes>): seq<Field> {
    if d.Some? then [BytesField(tag, d.value)] else []
  }

  function AuthFields(r: AuthRequest): seq<Field> {
    Optional(0x0a, Some([])) + Optional(0x12, r.md5DeviceTypeAndDeviceId)
    + [VarintField(0x18, ToUint32(r.protoVersion))] + [VarintField(0x20, ToUint32(r.authProto))]
    + [VarintField(0x28, r.authMethod)]
    + Optional(0x32, r.aesSign) + Optional(0x3a, r.macAddress) + Optional(0x52, r.timeZone)
    + Optional(0x5a, r.language) + Optional(0x62, r.deviceName)
  }

  function InitFields(r: InitRequest): seq<Field> {
    Optional(0x0a, Some([])) + Optional(0x12, r.respFieldFilter) + Optional(0x1a, r.challenge)
  }

  function SendDataFields(r: SendDataRequest): seq<Field> {
    Optional(0x0a, Some([])) + Optional(0x12, Some(r.data))
    + (if r.dataType.Some? then [VarintField(0x18, r.dataType.value)] else [])
  }

  /** Valid fields whose tags rise from above `lo` to at most `hi`. */
  ghost predicate Rising(fs: seq<Field>, lo: int, hi: int) {
    && ValidFields(fs)
    && (forall i :: 0 <= i < |fs| ==> lo < fs[i].tag <= hi)
    && (forall i, j :: 0 <= i < j < |fs| ==> fs[i].tag < fs[j].tag)
  }

  lemma {:induction false} RisingAppend(fs: seq<Field>, gs: seq<Field>, lo: int, mid: int, hi: int)
    requires lo <= mid <= hi && Rising(fs, lo, mid) && Rising(gs, mid, hi)
    ensures Rising(fs + gs, lo, hi)
  {
    var all := fs + gs;
    forall i | 0 <= i < |all| ensures ValidField(all[i]) && lo < all[i].tag <= hi {
      if i >= |fs| { assert all[i] == gs[i - |fs|]; }
    }
    forall i, j | 0 <= i < j < |all| ensures all[i].tag < all[j].tag {
      if j < |fs| {
        assert all[i] == fs[i] && all[j] == fs[j];
      } else if i < |fs| {
        assert all[i] == fs[i] && all[j] == gs[j - |fs|];
      } else {
        assert all[i] == gs[i - |fs|] && all[j] == gs[j - |fs|];
      }
    }
  }

  lemma {:induction false} OptionalRising(tag: uint16, d: Option<Bytes>, lo: int)
    requires ValidTag(tag, 2) && lo < tag
    ensures Rising(Optional(tag, d), lo, tag)
  {
  }

  lemma {:induction false} NumberRising(tag: uint16, v: uint32, lo: int)
    requires ValidTag(tag, 0) && lo < tag
    ensures Rising([VarintField(tag, v)], lo, tag)
  {
  }

  /** One more optional bytes field, with a tag above those before it. */
  lemma {:induction false} RisingOptional(fs: seq<Field>, hi: int, tag: uint16, d: Option<Bytes>)
    requires Rising(fs, 0, hi) && 0 <= hi < tag && ValidTag(tag, 2)
    ensures Rising(fs + Optional(tag, d), 0, tag)
  {
    OptionalRising(tag, d, hi);
    RisingAppend(fs, Optional(tag, d), 0, hi, tag);
  }

  /** One more number, with a tag above those before it. */
  lemma {:induction false} RisingNumber(fs: seq<Field>, hi: int, tag: uint16, v: uint32)
    requires Rising(fs, 0, hi) && 0 <= hi < tag && ValidTag(tag, 0)
    ensures Rising(fs + [VarintField(tag, v)], 0, tag)
  {
    NumberRising(tag, v, hi);
    RisingAppend(fs, [VarintField(tag, v)], 0, hi, tag);
  }

  lemma {:induction false} AuthFieldsRising(r: AuthRequest)
    ensures Rising(AuthFields(r), 0, 0x62)
  {
    hide Rising, Optional;
    var fs := Optional(0x0a, Some([]));
    OptionalRising(0x0a, Some([]), 0);
    RisingOptional(fs, 0x0a, 0x12, r.md5DeviceTypeAndDeviceId);
    fs := fs + Optional(0x12, r.md5DeviceTypeAndDeviceId);
    RisingNumber(fs, 0x12, 0x18, ToUint32(r.protoVersion));
    fs := fs + [VarintField(0x18, ToUint32(r.protoVersion))];
    RisingNumber(fs, 0x18, 0x20, ToUint32(r.authProto));
    fs := fs + [VarintField(0x20, ToUint32(r.authProto))];
    RisingNumber(fs, 0x20, 0x28, r.authMethod);
    fs := fs + [VarintField(0x28, r.authMethod)];
    RisingOptional(fs, 0x28, 0x32, r.aesSign);
    fs := fs + Optional(0x32, r.aesSign);
    RisingOptional(fs, 0x32, 0x3a, r.macAddress);
    fs := fs + Optional(0x3a, r.macAddress);
    RisingOptional(fs, 0x3a, 0x52, r.timeZone);
    fs := fs + Optional(0x52, r.timeZone);
    RisingOptional(fs, 0x52, 0x5a, r.language);
    fs := fs + Optional(0x5a, r.language);
    RisingOptional(fs, 0x5a, 0x62, r.deviceName);
  }

  lemma {:induction false} InitFieldsRising(r: InitRequest)
    ensures Rising(InitFields(r), 0, 0x1a)
  {
    hide Rising, Optional;
    OptionalRising(0x0a, Some([]), 0);
    RisingOptional(Optional(0x0a, Some([])), 0x0a, 0x12, r.respFieldFilter);
    RisingOptional(Optional(0x0a, Some([])) + Optional(0x12, r.respFieldFilter), 0x12, 0x1a, r.challenge);
  }

  lemma {:induction false} SendDataFieldsRising(r: SendDataRequest)
    ensures Rising(SendDataFields(r), 0, 0x18)
  {
  }

  /** Every field of a packed request comes back by its tag. */
  lemma {:induction false} Recoverable(fs: seq<Field>, hi: int, cap: uint16, i: nat)
    requires Rising(fs, 0, hi) && i < |fs|
    requires |EncodeAll(fs)| <= cap && |EncodeAll(fs)| < 0xFFFF
    ensures var data := WriteAll([], cap, fs);
            && |data| < TWO_16
            && Halts(data, fs[i].tag, 0) && ScanResult(data, fs[i].tag) < |data|
            && ReadAs(data, ScanResult(data, fs[i].tag), fs[i]) == fs[i]
            && (fs[i].BytesField? ==> BytesWhole(data, ScanResult(data, fs[i].tag)))
  {
    assert FirstIndex(fs, fs[i].tag) == i;
    GetReturnsFirst(fs, cap, fs[i].tag);
  }

  /** The getters find these bytes under the tag, whole; or, of an absent member, nothing. */
  ghost predicate BytesBack(data: seq<uint8>, tag: uint16, d: Option<Bytes>)
    requires |data| < TWO_16
  {
    && Halts(data, tag, 0)
    && var o := ScanResult(data, tag);
       match d
       case None => o == FAILURE
       case Some(b) => BytesWhole(data, o) && var (p, l) := Epb.BytesAt(data, o); data[p..p + l] == b
  }

  /** The getter of numbers finds this one under the tag; or, of an absent member, nothing. */
  ghost predicate NumberBack(data: seq<uint8>, tag: uint16, v: Option<uint32>)
    requires |data| < TWO_16
  {
    && Halts(data, tag, 0)
    && var o := ScanResult(data, tag);
       match v
       case None => o == FAILURE
       case Some(n) => o < |data| && Epb.UintAt(data, o) == n
  }

  lemma {:induction false} IndexOf(fs: seq<Field>, f: Field) returns (i: nat)
    requires f in fs
    ensures i < |fs| && fs[i] == f
  {
    i :| 0 <= i < |fs| && fs[i] == f;
  }

  lemma {:induction false} BytesComeBack(fs: seq<Field>, hi: int, cap: uint16, tag: uint16, d: Option<Bytes>)
    requires Rising(fs, 0, hi) && |EncodeAll(fs)| <= cap && |EncodeAll(fs)| < 0xFFFF
    requires if d.Some? then BytesField(tag, d.value) in fs else forall f <- fs :: f.tag != tag
    ensures |WriteAll([], cap, fs)| < TWO_16 && BytesBack(WriteAll([], cap, fs), tag, d)
  {
    hide VarintAt, WriteAll, EncodeAll, Halts, ScanRun, ValidField;
    WriteAllIff([], cap, fs);
    assert [] + EncodeAll(fs) == EncodeAll(fs);
    match d
    case None => Absent(fs, tag);
    case Some(b) =>
      var i := IndexOf(fs, BytesField(tag, b));
      Recoverable(fs, hi, cap, i);
      hide Rising;
  }

  lemma {:induction false} NumberComesBack(fs: seq<Field>, hi: int, cap: uint16, tag: uint16, v: Option<uint32>)
    requires Rising(fs, 0, hi) && |EncodeAll(fs)| <= cap && |EncodeAll(fs)| < 0xFFFF
    requires if v.Some? then VarintField(tag, v.value) in fs else forall f <- fs :: f.tag != tag
    ensures |WriteAll([], cap, fs)| < TWO_16 && NumberBack(WriteAll([], cap, fs), tag, v)
  {
    hide VarintAt, WriteAll, EncodeAll, Halts, ScanRun, ValidField;
    WriteAllIff([], cap, fs);
    assert [] + EncodeAll(fs) == EncodeAll(fs);
    match v
    case None => Absent(fs, tag);
    case Some(n) =>
      var i := IndexOf(fs, VarintField(tag, n));
      Recoverable(fs, hi, cap, i);
      hide Rising;
  }

  lemma {:induction false} Absent(fs: seq<Field>, tag: uint16)
    requires ValidFields(fs) && |EncodeAll(fs)| < 0xFFFF && forall f <- fs :: f.tag != tag
    ensures Halts(EncodeAll(fs), tag, 0) && ScanResult(EncodeAll(fs), tag) == FAILURE
  {
    ScanFindsFirst(fs, tag);
    FirstIndexOf(fs, tag);
  }

  lemma {:induction false} InOptional(f: Field, tag: uint16, d: Option<Bytes>)
    ensures f in Optional(tag, d) <==> d.Some? && f == BytesField(tag, d.value)
  {
  }

  function OptionalField(tag: uint16, d: Option<Bytes>): Option<Field> {
    if d.Some? then Some(BytesField(tag, d.value)) else None
  }

  /** The field an authentication request has under a tag. */
  function AuthMember(r: AuthRequest, tag: uint16): Option<Field> {
    if tag == 0x0a then Some(BytesField(0x0a, []))
    else if tag == 0x12 then OptionalField(0x12, r.md5DeviceTypeAndDeviceId)
    else if tag == 0x18 then Some(VarintField(0x18, ToUint32(r.protoVersion)))
    else if tag == 0x20 then Some(VarintField(0x20, ToUint32(r.authProto)))
    else if tag == 0x28 then Some(VarintField(0x28, r.authMethod))
    else if tag == 0x32 then OptionalField(0x32, r.aesSign)
    else if tag == 0x3a then OptionalField(0x3a, r.macAddress)
    else if tag == 0x52 then OptionalField(0x52, r.timeZone)
    else if tag == 0x5a then OptionalField(0x5a, r.language)
    else if tag == 0x62 then OptionalField(0x62, r.deviceName)
    else None
  }

  lemma {:induction false} InAuthFields(r: AuthRequest, f: Field)
    ensures f in AuthFields(r) <==> AuthMember(r, f.tag) == Some(f)
  {
    hide Optional;
    InOptional(f, 0x0a, Some([]));
    InOptional(f, 0x12, r.md5DeviceTypeAndDeviceId);
    InOptional(f, 0x32, r.aesSign);
    InOptional(f, 0x3a, r.macAddress);
    InOptional(f, 0x52, r.timeZone);
    InOptional(f, 0x5a, r.language);
    InOptional(f, 0x62, r.deviceName);
  }

  lemma {:induction false} AuthBytesBack(r: AuthRequest, cap: uint16, tag: uint16, d: Option<Bytes>)
    requires |EncodeAll(AuthFields(r))| <= cap && |EncodeAll(AuthFields(r))| < 0xFFFF
    requires AuthMember(r, tag) == OptionalField(tag, d)
    ensures |WriteAll([], cap, AuthFields(r))| < TWO_16 && BytesBack(WriteAll([], cap, AuthFields(r)), tag, d)
  {
    AuthFieldsRising(r);
    hide BytesBack, Rising, WriteAll, EncodeAll, AuthFields, AuthMember;
    forall f: Field ensures f in AuthFields(r) <==> AuthMember(r, f.tag) == Some(f) {
      InAuthFields(r, f);
    }
    BytesComeBack(AuthFields(r), 0x62, cap, tag, d);
  }

  lemma {:induction false} AuthNumberBack(r: AuthRequest, cap: uint16, tag: uint16, v: uint32)
    requires |EncodeAll(AuthFields(r))| <= cap && |EncodeAll(AuthFields(r))| < 0xFFFF
    requires AuthMember(r, tag) == Some(VarintField(tag, v))
    ensures |WriteAll([], cap, AuthFields(r))| < TWO_16 && NumberBack(WriteAll([], cap, AuthFields(r)), tag, Some(v))
  {
    AuthFieldsRising(r);
    InAuthFields(r, VarintField(tag, v));
    hide NumberBack, Rising, WriteAll, EncodeAll, AuthFields, AuthMember;
    NumberComesBack(AuthFields(r), 0x62, cap, tag, Some(v));
  }

  /** Every member of a packed authentication request comes back under its own tag, and an absent
      one is not found. */
  lemma {:induction false} AuthRequestRecoverable(r: AuthRequest, cap: uint16)
    requires |EncodeAll(AuthFields(r))| <= cap && |EncodeAll(AuthFields(r))| < 0xFFFF
    ensures var data := WriteAll([], cap, AuthFields(r));
            && |data| < TWO_16
            && BytesBack(data, 0x0a, Some([]))
            && BytesBack(data, 0x12, r.md5DeviceTypeAndDeviceId)
            && NumberBack(data, 0x18, Some(ToUint32(r.protoVersion)))
            && NumberBack(data, 0x20, Some(ToUint32(r.authProto)))
            && NumberBack(data, 0x28, Some(r.authMethod))
            && BytesBack(data, 0x32, r.aesSign)
            && BytesBack(data, 0x3a, r.macAddress)
            && BytesBack(data, 0x52, r.timeZone)
            && BytesBack(data, 0x5a, r.language)
            && BytesBack(data, 0x62, r.deviceName)
  {
    hide AuthFields, BytesBack, NumberBack, WriteAll, EncodeAll, OptionalField;
    assert OptionalField(0x0a, Some([])) == Some(BytesField(0x0a, [])) by { PresentField(0x0a, []); }
    AuthBytesBack(r, cap, 0x0a, Some([]));
    AuthBytesBack(r, cap, 0x12, r.md5DeviceTypeAndDeviceId);
    AuthNumberBack(r, cap, 0x18, ToUint32(r.protoVersion));
    AuthNumberBack(r, cap, 0x20, ToUint32(r.authProto));
    AuthNumberBack(r, cap, 0x28, r.authMethod);
    AuthBytesBack(r, cap, 0x32, r.aesSign);
    AuthBytesBack(r, cap, 0x3a, r.macAddress);
    AuthBytesBack(r, cap, 0x52, r.timeZone);
    AuthBytesBack(r, cap, 0x5a, r.language);
    AuthBytesBack(r, cap, 0x62, r.deviceName);
  }

  lemma {:induction false} PresentField(tag: uint16, b: Bytes)
    ensures OptionalField(tag, Some(b)) == Some(BytesField(tag, b))
  {
  }

  /** The same for an initialisation request. */
  lemma {:induction false} InitRequestRecoverable(r: InitRequest, cap: uint16)
    requires |EncodeAll(InitFields(r))| <= cap && |EncodeAll(InitFields(r))| < 0xFFFF
    ensures var data := WriteAll([], cap, InitFields(r));
            && |data| < TWO_16
            && BytesBack(data, 0x0a, Some([]))
            && BytesBack(data, 0x12, r.respFieldFilter)
            && BytesBack(data, 0x1a, r.challenge)
  {
    var fs := InitFields(r);
    InitFieldsRising(r);
    hide BytesBack, Rising, WriteAll, EncodeAll;
    BytesComeBack(fs, 0x1a, cap, 0x0a, Some([]));
    BytesComeBack(fs, 0x1a, cap, 0x12, r.respFieldFilter);
    BytesComeBack(fs, 0x1a, cap, 0x1a, r.challenge);
  }

  /** The same for a request to send data. */
  lemma {:induction false} SendDataRequestRecoverable(r: SendDataRequest, cap: uint16)
    requires |EncodeAll(SendDataFields(r))| <= cap && |EncodeAll(SendDataFields(r))| < 0xFFFF
    ensures var data := WriteAll([], cap, SendDataFields(r));
            && |data| < TWO_16
            && BytesBack(data, 0x0a, Some([]))
            && BytesBack(data, 0x12, Some(r.data))
            && NumberBack(data, 0x18, if r.dataType.Some? then Some(r.dataType.value) else None)
  {
    var fs := SendDataFields(r);
    SendDataFieldsRising(r);
    hide BytesBack, NumberBack, Rising, WriteAll, EncodeAll;
    BytesComeBack(fs, 0x18, cap, 0x0a, Some([]));
    BytesComeBack(fs, 0x18, cap, 0x12, Some(r.data));
    NumberComesBack(fs, 0x18, cap, 0x18, if r.dataType.Some? then Some(r.dataType.value) else None);
  }

  // ---------- The size and pack functions of each request ----------

  lemma {:induction false} EncodeAllSnoc(fs: seq<Field>, f: Field)
    ensures |EncodeAll(fs + [f])| == |EncodeAll(fs)| + |TagBytes(f.tag)| + |Payload(f)|
  {
    assert fs + [f] + [] == fs + [f];
    EncodeAllMiddle(fs, f, []);
  }

  /** pack_size += epb_varint32_pack_size(tag, value, FALSE), after the fields `fs`. */
  method AddVarint(packSize: uint16, tag: uint16, value: uint32, ghost fs: seq<Field>) returns (size: uint16)
    requires packSize == |EncodeAll(fs)| % TWO_16
    ensures size == |EncodeAll(fs + [VarintField(tag, value)])| % TWO_16
  {
    hide EncodeAll, TagBytes, VarintBytes;
    EncodeAllSnoc(fs, VarintField(tag, value));
    size := VarintPackSize(tag, value, false);
    size := (packSize + size) % TWO_16;
  }

  /** if (has_...) pack_size += epb_length_delimited_pack_size(tag, len) */
  method AddBytes(packSize: uint16, tag: uint16, d: Option<Bytes>, ghost fs: seq<Field>) returns (size: uint16)
    requires packSize == |EncodeAll(fs)| % TWO_16
    ensures size == |EncodeAll(fs + Optional(tag, d))| % TWO_16
  {
    hide EncodeAll, TagBytes, VarintBytes;
    size := packSize;
    if d.Some? {
      EncodeAllSnoc(fs, BytesField(tag, d.value));
      var n := LengthDelimitedPackSize(tag, |d.value|);
      size := (packSize + n) % TWO_16;
    } else {
      assert fs + Optional(tag, d) == fs;
    }
  }

  /** epb_auth_request_pack_size */
  method AuthRequestPackSize(r: AuthRequest) returns (packSize: uint16)
    ensures packSize == |EncodeAll(AuthFields(r))| % TWO_16
  {
    hide EncodeAll, Optional;
    EmptyMessage();
    packSize := AddBytes(0, 0x0a, Some([]), []);
    ghost var fs := Optional(0x0a, Some([]));
    assert [] + fs == fs;
    packSize := AddBytes(packSize, 0x12, r.md5DeviceTypeAndDeviceId, fs);
    fs := fs + Optional(0x12, r.md5DeviceTypeAndDeviceId);
    packSize := AddVarint(packSize, 0x18, ToUint32(r.protoVersion), fs);
    fs := fs + [VarintField(0x18, ToUint32(r.protoVersion))];
    packSize := AddVarint(packSize, 0x20, ToUint32(r.authProto), fs);
    fs := fs + [VarintField(0x20, ToUint32(r.authProto))];
    packSize := AddVarint(packSize, 0x28, r.authMethod, fs);
    fs := fs + [VarintField(0x28, r.authMethod)];
    packSize := AddBytes(packSize, 0x32, r.aesSign, fs);
    fs := fs + Optional(0x32, r.aesSign);
    packSize := AddBytes(packSize, 0x3a, r.macAddress, fs);
    fs := fs + Optional(0x3a, r.macAddress);
    packSize := AddBytes(packSize, 0x52, r.timeZone, fs);
    fs := fs + Optional(0x52, r.timeZone);
    packSize := AddBytes(packSize, 0x5a, r.language, fs);
    fs := fs + Optional(0x5a, r.language);
    packSize := AddBytes(packSize, 0x62, r.deviceName, fs);
    fs := fs + Optional(0x62, r.deviceName);
    assert fs == AuthFields(r);
  }

  /** epb_init_request_pack_size */
  method InitRequestPackSize(r: InitRequest) returns (packSize: uint16)
    ensures packSize == |EncodeAll(InitFields(r))| % TWO_16
  {
    hide EncodeAll, Optional;
    EmptyMessage();
    packSize := AddBytes(0, 0x0a, Some([]), []);
    ghost var fs := Optional(0x0a, Some([]));
    assert [] + fs == fs;
    packSize := AddBytes(packSize, 0x12, r.respFieldFilter, fs);
    fs := fs + Optional(0x12, r.respFieldFilter);
    packSize := AddBytes(packSize, 0x1a, r.challenge, fs);
    fs := fs + Optional(0x1a, r.challenge);
    assert fs == InitFields(r);
  }

  /** epb_send_data_request_pack_size */
  method SendDataRequestPackSize(r: SendDataRequest) returns (packSize: uint16)
    ensures packSize == |EncodeAll(SendDataFields(r))| % TWO_16
  {
    hide EncodeAll, Optional;
    EmptyMessage();
    packSize := AddBytes(0, 0x0a, Some([]), []);
    ghost var fs := Optional(0x0a, Some([]));
    assert [] + fs == fs;
    packSize := AddBytes(packSize, 0x12, Some(r.data), fs);
    fs := fs + Optional(0x12, Some(r.data));
    if r.dataType.Some? {
      packSize := AddVarint(packSize, 0x18, r.dataType.value, fs);
      fs := fs + [VarintField(0x18, r.dataType.value)];
    }
    assert fs == SendDataFields(r) by {
      if r.dataType.None? { assert fs + [] == fs; }
    }
  }

  lemma {:induction false} EmptyMessage()
    ensures EncodeAll([]) == []
  {
  }

  lemma {:induction false} WriteOne(contents: seq<uint8>, cap: nat, f: Field)
    ensures WriteAll(contents, cap, [f]) == AppendParts(contents, cap, Parts(f))
  {
    assert [f][1..] == [];
  }

  /** if (has_...) epb_set_bytes(...), after the fields `fs`. */
  method SetOptional(epb: Epb.Packer, tag: uint16, d: Option<Bytes>, ghost fs: seq<Field>)
    requires epb.Valid() && epb.Contents() == WriteAll([], epb.bufLen, fs)
    modifies epb`bufOffset, epb.packBuf
    ensures epb.Appended()
    ensures epb.Contents() == WriteAll([], epb.bufLen, fs + Optional(tag, d))
  {
    WriteAllAppend([], epb.bufLen, fs, Optional(tag, d));
    if d.Some? {
      WriteOne(epb.Contents(), epb.bufLen, BytesField(tag, d.value));
      var _ := epb.SetBytes(tag, d.value);
    }
  }

  /** epb_set_int32 or epb_set_enum, after the fields `fs`. */
  method SetNumber(epb: Epb.Packer, tag: uint16, value: uint32, ghost fs: seq<Field>)
    requires epb.Valid() && epb.Contents() == WriteAll([], epb.bufLen, fs)
    modifies epb`bufOffset, epb.packBuf
    ensures epb.Appended()
    ensures epb.Contents() == WriteAll([], epb.bufLen, fs + [VarintField(tag, value)])
  {
    WriteAllAppend([], epb.bufLen, fs, [VarintField(tag, value)]);
    WriteOne(epb.Contents(), epb.bufLen, VarintField(tag, value));
    var _ := epb.SetUint32(tag, value);
  }

  /** What every pack function promises of the buffer it was given. */
  twostate predicate Packed(buf: array<uint8>, bufLen: uint16, ret: uint16, fs: seq<Field>)
    requires bufLen <= buf.Length
    reads buf
  {
    && ret <= bufLen
    && buf[..ret] == WriteAll([], bufLen, fs)
    && buf[ret..] == old(buf[..])[ret..]
    && (|EncodeAll(fs)| <= bufLen ==> buf[..ret] == EncodeAll(fs))
    && (ret == |EncodeAll(fs)| <==> |EncodeAll(fs)| <= bufLen)
  }

  /** epb_pack_auth_request. No step reports that it did not fit; the packed size equals the
      size function's exactly when the buffer was large enough. */
  method PackAuthRequest(r: AuthRequest, buf: array<uint8>, bufLen: uint16) returns (ret: uint16)
    requires bufLen <= buf.Length
    modifies buf
    ensures Packed(buf, bufLen, ret, AuthFields(r))
  {
    var epb := new Epb.Packer(buf, bufLen);
    hide EncodeAll, Optional;
    SetOptional(epb, 0x0a, Some([]), []);
    ghost var fs := Optional(0x0a, Some([]));
    assert [] + fs == fs;
    SetOptional(epb, 0x12, r.md5DeviceTypeAndDeviceId, fs);
    fs := fs + Optional(0x12, r.md5DeviceTypeAndDeviceId);
    SetNumber(epb, 0x18, ToUint32(r.protoVersion), fs);
    fs := fs + [VarintField(0x18, ToUint32(r.protoVersion))];
    SetNumber(epb, 0x20, ToUint32(r.authProto), fs);
    fs := fs + [VarintField(0x20, ToUint32(r.authProto))];
    SetNumber(epb, 0x28, r.authMethod, fs);
    fs := fs + [VarintField(0x28, r.authMethod)];
    SetOptional(epb, 0x32, r.aesSign, fs);
    fs := fs + Optional(0x32, r.aesSign);
    SetOptional(epb, 0x3a, r.macAddress, fs);
    fs := fs + Optional(0x3a, r.macAddress);
    SetOptional(epb, 0x52, r.timeZone, fs);
    fs := fs + Optional(0x52, r.timeZone);
    SetOptional(epb, 0x5a, r.language, fs);
    fs := fs + Optional(0x5a, r.language);
    SetOptional(epb, 0x62, r.deviceName, fs);
    fs := fs + Optional(0x62, r.deviceName);
    assert fs == AuthFields(r);
    WriteAllIff([], bufLen, fs);
    return epb.bufOffset;
  }

  /** epb_pack_init_request */
  method PackInitRequest(r: InitRequest, buf: array<uint8>, bufLen: uint16) returns (ret: uint16)
    requires bufLen <= buf.Length
    modifies buf
    ensures Packed(buf, bufLen, ret, InitFields(r))
  {
    var epb := new Epb.Packer(buf, bufLen);
    hide EncodeAll, Optional;
    SetOptional(epb, 0x0a, Some([]), []);
    ghost var fs := Optional(0x0a, Some([]));
    assert [] + fs == fs;
    SetOptional(epb, 0x12, r.respFieldFilter, fs);
    fs := fs + Optional(0x12, r.respFieldFilter);
    SetOptional(epb, 0x1a, r.challenge, fs);
    fs := fs + Optional(0x1a, r.challenge);
    assert fs == InitFields(r);
    WriteAllIff([], bufLen, fs);
    return epb.bufOffset;
  }

  /** epb_pack_send_data_request */
  method PackSendDataRequest(r: SendDataRequest, buf: array<uint8>, bufLen: uint16) returns (ret: uint16)
    requires bufLen <= buf.Length
    modifies buf
    ensures Packed(buf, bufLen, ret, SendDataFields(r))
  {
    var epb := new Epb.Packer(buf, bufLen);
    hide EncodeAll, Optional;
    SetOptional(epb, 0x0a, Some([]), []);
    ghost var fs := Optional(0x0a, Some([]));
    assert [] + fs == fs;
    SetOptional(epb, 0x12, Some(r.data), fs);
    fs := fs + Optional(0x12, Some(r.data));
    if r.dataType.Some? {
      SetNumber(epb, 0x18, r.dataType.value, fs);
      fs := fs + [VarintField(0x18, r.dataType.value)];
    }
    assert fs == SendDataFields(r) by {
      if r.dataType.None? { assert fs + [] == fs; }
    }
    WriteAllIff([], bufLen, fs);
    return epb.bufOffset;
  }
}
