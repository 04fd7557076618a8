/** Bluetooth low energy advertising data (apps/sink/sink_ble_advertising.c; section 11 of
    Volume 3, Part C of the Bluetooth Core Specification): how the device builds its own, in at
    most 31 octets, and how it walks another device's. */
module BleAdvertising {
  import opened Ints
  import opened Wrappers
  import opened Seqs

  type Bytes = seq<uint8>

  const MAX_AD_DATA_SIZE := 31
  const AD_DATA_HEADER_SIZE := 2
  const OCTETS_PER_SERVICE := 2
  const SIZE_MANUFACTURER_DATA := 8

  const AD_TYPE_FLAGS: uint8 := 0x01
  const AD_TYPE_MORE_UUID16: uint8 := 0x02
  const AD_TYPE_COMPLETE_UUID16: uint8 := 0x03
  const AD_TYPE_SHORTENED_LOCAL_NAME: uint8 := 0x08
  const AD_TYPE_COMPLETE_LOCAL_NAME: uint8 := 0x09
  const AD_TYPE_APPEARANCE: uint8 := 0x19
  const AD_TYPE_MANUFACTURER: uint8 := 0xFF

  const BATTERY_SERVICE: uint16 := 0x180F
  const WE_CHAT_SERVICE: uint16 := 0xFEE7
  const HUMAN_INTERFACE_DEVICE: uint16 := 0x1812

  /** General discoverable, single mode. */
  const FLAGS: uint8 := 0x06

  // ---------- Elements ----------

  datatype Element = Element(tag: uint8, data: Bytes)

  /** An element whose length octet can say its length, and whose data is as long as its type needs. */
  predicate Valid(e: Element) {
    && |e.data| < 0xFF
    && (e.tag == AD_TYPE_FLAGS ==> |e.data| >= 1)
    && (e.tag == AD_TYPE_COMPLETE_UUID16 ==> |e.data| % 2 == 0)
    && (e.tag == AD_TYPE_APPEARANCE ==> |e.data| >= 2)
  }

  predicate AllValid(elements: seq<Element>) {
    forall i :: 0 <= i < |elements| ==> Valid(elements[i])
  }

  function Encode(e: Element): Bytes
    requires Valid(e)
  {
    [|e.data| + 1, e.tag] + e.data
  }

  function EncodeAll(elements: seq<Element>): Bytes
    requires AllValid(elements)
  {
    if elements == [] then [] else Encode(elements[0]) + EncodeAll(elements[1..])
  }

  /** The element at the start of advertising data. */
  predicate StartsWhole(ad: Bytes) {
    |ad| >= AD_DATA_HEADER_SIZE && 1 <= ad[0] < |ad|
  }

  function First(ad: Bytes): Element
    requires StartsWhole(ad)
  {
    Element(ad[1], ad[AD_DATA_HEADER_SIZE..ad[0] + 1])
  }

  /** The data is a chain of whole elements. */
  predicate WellFormed(ad: Bytes) {
    ad == [] || (StartsWhole(ad) && Valid(First(ad)) && WellFormed(ad[ad[0] + 1..]))
  }

  /** The elements the walk visits. */
  function ElementsOf(ad: Bytes): seq<Element>
    requires WellFormed(ad)
  {
    if ad == [] then [] else [First(ad)] + ElementsOf(ad[ad[0] + 1..])
  }

  lemma {:induction false} FirstEncoded(e: Element, rest: Bytes)
    requires Valid(e)
    ensures var ad := Encode(e) + rest;
            && StartsWhole(ad) && First(ad) == e && ad[ad[0] + 1..] == rest
  {
    var ad := Encode(e) + rest;
    assert ad[AD_DATA_HEADER_SIZE..ad[0] + 1] == e.data;
  }

  /** Whatever elements are written, the walk visits exactly those. */
  lemma {:induction false} WalkVisitsBuilt(elements: seq<Element>)
    requires AllValid(elements)
    ensures WellFormed(EncodeAll(elements)) && ElementsOf(EncodeAll(elements)) == elements
  {
    hide Encode, First, StartsWhole, Valid;
    if elements != [] {
      FirstEncoded(elements[0], EncodeAll(elements[1..]));
      WalkVisitsBuilt(elements[1..]);
    }
  }

  /** Well-formed data is nothing but the elements visited. */
  lemma {:induction false} BuiltFromVisited(ad: Bytes)
    requires WellFormed(ad)
    ensures AllValid(ElementsOf(ad)) && EncodeAll(ElementsOf(ad)) == ad
  {
    hide Valid;
    if ad != [] {
      BuiltFromVisited(ad[ad[0] + 1..]);
      FirstIsEncoded(ad);
    }
  }

  lemma {:induction false} FirstIsEncoded(ad: Bytes)
    requires StartsWhole(ad) && Valid(First(ad))
    ensures ad == Encode(First(ad)) + ad[ad[0] + 1..]
  {
  }

  // ---------- What is built ----------

  const FLAGS_ELEMENT := Element(AD_TYPE_FLAGS, [FLAGS])

  function UuidBytes(services: seq<uint16>): (b: Bytes)
    ensures |b| == OCTETS_PER_SERVICE * |services|
  {
    if services == [] then [] else [services[0] % 0x100, services[0] / 0x100] + UuidBytes(services[1..])
  }

  /** All the services if they fit, or the first of them. */
  function ServicesElement(services: seq<uint16>, free: nat): (e: Element)
    requires AD_DATA_HEADER_SIZE + OCTETS_PER_SERVICE <= free <= MAX_AD_DATA_SIZE
    ensures Valid(e) && AD_DATA_HEADER_SIZE + |e.data| <= free
  {
    if AD_DATA_HEADER_SIZE + OCTETS_PER_SERVICE * |services| <= free
    then Element(AD_TYPE_COMPLETE_UUID16, UuidBytes(services))
    else Element(AD_TYPE_MORE_UUID16, UuidBytes(services[..1]))
  }

  function Size(elements: seq<Element>): nat {
    if elements == [] then 0 else AD_DATA_HEADER_SIZE + |elements[0].data| + Size(elements[1..])
  }

  /** The local name if there is one and room for any of it: whole if at least one octet is left
      over, otherwise as much as fits. */
  function NameElement(name: Bytes, free: nat): (named: seq<Element>)
    requires free <= MAX_AD_DATA_SIZE
    ensures AllValid(named) && Size(named) <= free
  {
    if name == [] || free < AD_DATA_HEADER_SIZE + 1 then []
    else if AD_DATA_HEADER_SIZE + |name| < free then [Element(AD_TYPE_COMPLETE_LOCAL_NAME, name)]
    else [Element(AD_TYPE_SHORTENED_LOCAL_NAME, name[..free - AD_DATA_HEADER_SIZE])]
  }

  /** A device address. */
  type Address = b: Bytes | |b| == 6 witness [0, 0, 0, 0, 0, 0]

  /** The device's address, if there is room. */
  function ManufacturerElement(address: Address, free: nat): (made: seq<Element>)
    ensures AllValid(made) && Size(made) <= free
  {
    if free < AD_DATA_HEADER_SIZE + SIZE_MANUFACTURER_DATA then []
    else [Element(AD_TYPE_MANUFACTURER, [0x01, 0x01] + address)]
  }

  const FREE_AFTER_FLAGS := MAX_AD_DATA_SIZE - AD_DATA_HEADER_SIZE - 1

  function FreeForName(services: seq<uint16>): nat {
    FREE_AFTER_FLAGS - AD_DATA_HEADER_SIZE - |ServicesElement(services, FREE_AFTER_FLAGS).data|
  }

  /** The elements of the device's advertising data; builds with the WeChat service advertise
      the address too. */
  function Built(services: seq<uint16>, name: Bytes, address: Option<Address>): seq<Element> {
    var free := FreeForName(services);
    var named := NameElement(name, free);
    [FLAGS_ELEMENT, ServicesElement(services, FREE_AFTER_FLAGS)] + named
    + if address.Some? then ManufacturerElement(address.value, free - Size(named)) else []
  }

  lemma {:induction false} SizeAppend(a: seq<Element>, b: seq<Element>)
    ensures Size(a + b) == Size(a) + Size(b)
  {
    if a == [] {
      assert a + b == b;
    } else {
      SizeAppend(a[1..], b);
      assert (a + b)[1..] == a[1..] + b;
    }
  }

  lemma {:induction false} SizeTwo(a: Element, b: Element)
    ensures Size([a, b]) == AD_DATA_HEADER_SIZE + |a.data| + AD_DATA_HEADER_SIZE + |b.data|
  {
    assert Size([b]) == AD_DATA_HEADER_SIZE + |b.data| + Size([]);
    assert [a, b][1..] == [b];
  }

  lemma {:induction false} SizeIsLength(elements: seq<Element>)
    requires AllValid(elements)
    ensures |EncodeAll(elements)| == Size(elements)
  {
    if elements != [] {
      SizeIsLength(elements[1..]);
    }
  }

  /** For any services, name and address: the data is at most 31 octets, and walking it visits
      exactly the elements built. */
  lemma {:induction false} AdvertisingData(services: seq<uint16>, name: Bytes, address: Option<Address>)
    ensures var built := Built(services, name, address);
            && AllValid(built)
            && |EncodeAll(built)| <= MAX_AD_DATA_SIZE
            && WellFormed(EncodeAll(built)) && ElementsOf(EncodeAll(built)) == built
  {
    hide ServicesElement, NameElement, ManufacturerElement, UuidBytes;
    var free := FreeForName(services);
    var named := NameElement(name, free);
    var fixed := [FLAGS_ELEMENT, ServicesElement(services, FREE_AFTER_FLAGS)];
    var made := if address.Some? then ManufacturerElement(address.value, free - Size(named)) else [];
    SizeTwo(FLAGS_ELEMENT, ServicesElement(services, FREE_AFTER_FLAGS));
    SizeAppend(fixed, named);
    SizeAppend(fixed + named, made);
    var built := Built(services, name, address);
    assert built == fixed + named + made;
    SizeIsLength(built);
    WalkVisitsBuilt(built);
  }

  predicate IsName(e: Element) {
    e.tag == AD_TYPE_COMPLETE_LOCAL_NAME || e.tag == AD_TYPE_SHORTENED_LOCAL_NAME
  }

  /** For any room: the name element is the longest beginning of the name that fits, tagged complete,
      0x09, if and only if it is the whole name with an octet to spare, and otherwise shortened, 0x08;
      there is one if and only if there is a name and room for its first octet. */
  lemma {:induction false} NameFits(name: Bytes, free: nat, e: Element)
    requires free <= MAX_AD_DATA_SIZE
    ensures e in NameElement(name, free) <==>
              && name != [] && free >= 3
              && e.data == (if |name| + 2 <= free then name else name[..free - 2])
              && e.tag == if |name| + 2 < free then 0x09 else 0x08
  {
    if |name| + 2 == free {
      assert name[..free - 2] == name;
    }
  }

  /** For any services, name and address: an advertised name is the longest beginning of the
      local name that fits, never empty, and it is tagged complete if and only if it is the
      whole name with at least an octet to spare. There is one unless the name is empty or there
      is no room for any of it. */
  lemma {:induction false} NameAdvertised(services: seq<uint16>, name: Bytes, address: Option<Address>, e: Element)
    ensures var room := FreeForName(services) - AD_DATA_HEADER_SIZE;
            IsName(e) && e in Built(services, name, address) <==>
              && name != [] && room >= 1
              && e.data == (if |name| <= room then name else name[..room])
              && e.tag == if |name| < room then AD_TYPE_COMPLETE_LOCAL_NAME else AD_TYPE_SHORTENED_LOCAL_NAME
  {
    hide UuidBytes, AllValid;
    var free := FreeForName(services);
    var named := NameElement(name, free);
    var made := if address.Some? then ManufacturerElement(address.value, free - Size(named)) else [];
    assert Built(services, name, address) == [FLAGS_ELEMENT, ServicesElement(services, FREE_AFTER_FLAGS)] + named + made;
    assert IsName(e) ==> (e in Built(services, name, address) <==> e in named);
    if |name| == free - AD_DATA_HEADER_SIZE {
      assert name[..free - AD_DATA_HEADER_SIZE] == name;
    }
  }

  /** The tag says less than it could of a name that fits exactly: it is all there, but called
      shortened. */
  lemma {:induction false} ExactFitIsCalledShortened(name: Bytes, address: Option<Address>)
    requires |name| == FreeForName([BATTERY_SERVICE]) - AD_DATA_HEADER_SIZE
    ensures Element(AD_TYPE_SHORTENED_LOCAL_NAME, name) in Built([BATTERY_SERVICE], name, address)
  {
    NameAdvertised([BATTERY_SERVICE], name, address, Element(AD_TYPE_SHORTENED_LOCAL_NAME, name));
  }

  /** For any services, name and address: the flags advertised are general discoverable and single
      mode; a services element is tagged complete, and lists exactly the services, if there are at
      most 13 of them, and otherwise is tagged incomplete and lists exactly the first; and the
      address is advertised behind its two octets. */
  lemma {:induction false} ServicesAdvertised(services: seq<uint16>, name: Bytes, address: Option<Address>, e: Element)
    requires e in Built(services, name, address)
    ensures e.tag == 0x01 ==> e.data == [0x06]
    ensures e.tag == 0x02 || e.tag == 0x03 ==>
              && |e.data| % 2 == 0
              && (e.tag == 0x03 <==> |services| <= 13)
              && forall service: uint16 ::
                   Lists(e.data, service) <==> if |services| <= 13 then service in services else service == services[0]
    ensures e.tag == 0xFF ==> address.Some? && e.data == [0x01, 0x01] + address.value
  {
    if |services| <= 13 {
      forall service: uint16 ensures Lists(UuidBytes(services), service) <==> service in services {
        ListsExactly(services, service);
      }
    } else {
      forall service: uint16 ensures Lists(UuidBytes(services[..1]), service) <==> service == services[0] {
        ListsExactly(services[..1], service);
      }
    }
    hide UuidBytes, Lists;
  }

  /** A build that advertises its address does so if and only if the rest leaves ten octets. */
  lemma {:induction false} AddressAdvertised(services: seq<uint16>, name: Bytes, address: Address)
    ensures AllValid(Built(services, name, None))
    ensures Element(0xFF, [0x01, 0x01] + address) in Built(services, name, Some(address))
       <==> |EncodeAll(Built(services, name, None))| + 10 <= 31
  {
    var free := FreeForName(services);
    var list, named := ServicesElement(services, FREE_AFTER_FLAGS), NameElement(name, free);
    var e := Element(0xFF, [0x01, 0x01] + address);
    AdvertisingData(services, name, None);
    SizeIsLength(Built(services, name, None));
    SizeTwo(FLAGS_ELEMENT, list);
    SizeAppend([FLAGS_ELEMENT, list], named);
    assert Built(services, name, None) == [FLAGS_ELEMENT, list] + named;
    hide UuidBytes, EncodeAll, AllValid;
    var made := ManufacturerElement(address, free - Size(named));
    assert Built(services, name, Some(address)) == [FLAGS_ELEMENT, list] + named + made;
    if made != [] {
      assert made[0] == e;
    }
  }

  // ---------- Building in place ----------

  method SetupFlags() returns (temp: array<uint8>)
    ensures fresh(temp) && temp[..] == Encode(FLAGS_ELEMENT)
  {
    temp := new uint8[3];
    temp[0] := 0x02;
    temp[1] := AD_TYPE_FLAGS;
    temp[2] := 0x02 + 0x04;
  }

  /** The services of a build. */
  function Services(battery: bool, weChat: bool): seq<uint16> {
    (if battery then [BATTERY_SERVICE] else []) + if weChat then [WE_CHAT_SERVICE] else []
  }

  lemma {:induction false} BuildUuids(battery: bool, weChat: bool)
    ensures var services := Services(battery, weChat);
            UuidBytes(services) == (if battery then [0x0F, 0x18] else []) + if weChat then [0xE7, 0xFE] else []
    ensures battery ==> UuidBytes(Services(battery, weChat)[..1]) == [0x0F, 0x18]
  {
    assert UuidBytes([BATTERY_SERVICE]) == [0x0F, 0x18];
    assert UuidBytes([WE_CHAT_SERVICE]) == [0xE7, 0xFE];
    if battery {
      assert Services(battery, weChat)[..1] == [BATTERY_SERVICE];
      assert Services(battery, weChat)[1..] == if weChat then [WE_CHAT_SERVICE] else [];
    }
  }

  method SetupServices(battery: bool, weChat: bool, free: nat) returns (temp: array<uint8>)
    requires AD_DATA_HEADER_SIZE + OCTETS_PER_SERVICE <= free <= MAX_AD_DATA_SIZE
    ensures fresh(temp) && temp[..] == Encode(ServicesElement(Services(battery, weChat), free))
  {
    var number := (if battery then 1 else 0) + if weChat then 1 else 0;
    BuildUuids(battery, weChat);
    hide UuidBytes;
    var tag, complete;
    if AD_DATA_HEADER_SIZE + number * OCTETS_PER_SERVICE <= free {
      tag, complete := AD_TYPE_COMPLETE_UUID16, true;
      temp := new uint8[AD_DATA_HEADER_SIZE + number * OCTETS_PER_SERVICE];
    } else {
      tag, complete := AD_TYPE_MORE_UUID16, false;
      temp := new uint8[AD_DATA_HEADER_SIZE + OCTETS_PER_SERVICE];
    }
    temp[0] := temp.Length - 1;
    temp[1] := tag;
    var counter := AD_DATA_HEADER_SIZE;
    if battery {
      temp[counter] := BATTERY_SERVICE % 0x100;
      temp[counter + 1] := BATTERY_SERVICE / 0x100;
      counter := counter + 2;
      if !complete {
        return;
      }
    }
    if weChat {
      temp[counter] := WE_CHAT_SERVICE % 0x100;
      temp[counter + 1] := WE_CHAT_SERVICE / 0x100;
      counter := counter + 2;
    }
  }

  method SetupLocalName(name: Bytes, free: nat) returns (temp: array<uint8>)
    requires free <= MAX_AD_DATA_SIZE
    ensures fresh(temp) && temp[..] == EncodeAll(NameElement(name, free))
  {
    var tag, length;
    if |name| == 0 {
      temp := new uint8[0];
      return;
    } else if free < AD_DATA_HEADER_SIZE + 1 {
      temp := new uint8[0];
      return;
    } else if AD_DATA_HEADER_SIZE + |name| < free {
      tag, length := AD_TYPE_COMPLETE_LOCAL_NAME, |name|;
    } else {
      tag, length := AD_TYPE_SHORTENED_LOCAL_NAME, free - 2;
    }
    temp := new uint8[length + AD_DATA_HEADER_SIZE];
    temp[0] := length + 1;
    temp[1] := tag;
    forall k | 0 <= k < length {
      temp[2 + k] := name[k];
    }
    ghost var e := Element(tag, name[..length]);
    assert temp[..] == Encode(e);
    assert length == |name| ==> name[..length] == name;
    assert NameElement(name, free) == [e];
    EncodeOne(e);
  }

  lemma {:induction false} EncodeOne(e: Element)
    requires Valid(e)
    ensures EncodeAll([e]) == Encode(e)
  {
    assert [e][1..] == [];
    assert Encode(e) + [] == Encode(e);
  }

  method SetupManufacturer(address: Address, free: nat) returns (temp: array<uint8>)
    ensures fresh(temp) && temp[..] == EncodeAll(ManufacturerElement(address, free))
  {
    if free < AD_DATA_HEADER_SIZE + SIZE_MANUFACTURER_DATA {
      temp := new uint8[0];
      return;
    }
    temp := new uint8[SIZE_MANUFACTURER_DATA + AD_DATA_HEADER_SIZE];
    temp[0] := SIZE_MANUFACTURER_DATA + 1;
    temp[1] := AD_TYPE_MANUFACTURER;
    temp[2] := 0x01;
    temp[3] := 0x01;
    forall k | 0 <= k < 6 {
      temp[4 + k] := address[k];
    }
    ghost var e := Element(AD_TYPE_MANUFACTURER, [0x01, 0x01] + address);
    assert temp[..] == Encode(e);
    EncodeOne(e);
  }

  /** Reallocates the data so far with room for one more chunk, and moves the chunk in. */
  method Grow(adData: array<uint8>, temp: array<uint8>) returns (grown: array<uint8>)
    ensures fresh(grown) && grown[..] == adData[..] + temp[..]
  {
    grown := new uint8[adData.Length + temp.Length];
    forall k | 0 <= k < adData.Length {
      grown[k] := adData[k];
    }
    forall k | 0 <= k < temp.Length {
      grown[adData.Length + k] := temp[k];
    }
  }

  lemma {:induction false} EncodeAllAppends(a: seq<Element>, b: seq<Element>)
    requires AllValid(a) && AllValid(b)
    ensures AllValid(a + b) && EncodeAll(a + b) == EncodeAll(a) + EncodeAll(b)
  {
    hide Encode, Valid;
    if a == [] {
      assert a + b == b;
    } else {
      EncodeAllAppends(a[1..], b);
      assert (a + b)[1..] == a[1..] + b;
    }
  }

  /** setup_ble_ad_data: the free count is a nat, so an underflow would not verify. */
  method SetupBleAdData(battery: bool, weChat: bool, name: Bytes, address: Address) returns (adData: array<uint8>)
    ensures var built := Built(Services(battery, weChat), name, if weChat then Some(address) else None);
            AllValid(built) && adData[..] == EncodeAll(built)
  {
    hide ServicesElement, NameElement, ManufacturerElement, Encode, Valid;
    ghost var services := Services(battery, weChat);
    var free: nat := MAX_AD_DATA_SIZE;
    var temp := SetupFlags();
    FlagsSize();
    adData := temp;
    free := free - temp.Length;
    temp := SetupServices(battery, weChat, free);
    ghost var list := ServicesElement(services, FREE_AFTER_FLAGS);
    EncodeSize(list);
    adData := Grow(adData, temp);
    free := free - temp.Length;
    ghost var fixed := [FLAGS_ELEMENT, list];
    EncodeTwo(FLAGS_ELEMENT, list);
    temp := SetupLocalName(name, free);
    ghost var named := NameElement(name, free);
    SizeIsLength(named);
    EncodeAllAppends(fixed, named);
    adData := Grow(adData, temp);
    free := free - temp.Length;
    ghost var made := [];
    if weChat {
      temp := SetupManufacturer(address, free);
      made := ManufacturerElement(address, free);
      EncodeAllAppends(fixed + named, made);
      adData := Grow(adData, temp);
    }
    assert fixed + named + [] == fixed + named;
    assert Built(services, name, if weChat then Some(address) else None) == fixed + named + made;
  }

  lemma {:induction false} FlagsSize()
    ensures Valid(FLAGS_ELEMENT) && |Encode(FLAGS_ELEMENT)| == 3
  {
  }

  lemma {:induction false} EncodeSize(e: Element)
    requires Valid(e)
    ensures |Encode(e)| == AD_DATA_HEADER_SIZE + |e.data|
  {
  }

  lemma {:induction false} EncodeTwo(a: Element, b: Element)
    requires Valid(a) && Valid(b)
    ensures AllValid([a, b]) && EncodeAll([a, b]) == Encode(a) + Encode(b)
  {
    EncodeOne(b);
    assert [a, b][1..] == [b];
  }

  // ---------- Walking another device's data ----------

  const GENERIC_REMOTE_CONTROL: uint16 := 0x0180

  datatype Report = Report(flags: uint8, appearance: uint16, service: uint16)

  function Read16(b: Bytes, i: nat): uint16
    requires i + 2 <= |b|
  {
    var high: int := b[i + 1];
    high * 0x100 + b[i]
  }

  predicate Lists(data: Bytes, service: uint16)
    requires |data| % 2 == 0
  {
    exists k :: 0 <= k < |data| / 2 && Read16(data, 2 * k) == service
  }

  /** A list of services says exactly the services it was made from. */
  lemma {:induction false} ListsExactly(services: seq<uint16>, service: uint16)
    ensures Lists(UuidBytes(services), service) <==> service in services
  {
    if services != [] {
      var data, rest := UuidBytes(services), UuidBytes(services[1..]);
      ListsExactly(services[1..], service);
      assert Read16(data, 2 * 0) == services[0];
      assert data == data[..2] + rest;
      assert forall k :: 0 <= k < |rest| / 2 ==> Read16(data, 2 * (k + 1)) == Read16(rest, 2 * k);
      hide UuidBytes, Read16;
      if Lists(data, service) {
        var k :| 0 <= k < |data| / 2 && Read16(data, 2 * k) == service;
        if k > 0 {
          assert Read16(rest, 2 * (k - 1)) == service;
        }
      }
      if service in services && service != services[0] {
        var k :| 0 <= k < |rest| / 2 && Read16(rest, 2 * k) == service;
        assert Read16(data, 2 * (k + 1)) == service;
      }
    }
  }

  /** What one element adds to what is known of the device. */
  function Note(r: Report, e: Element): Report
    requires Valid(e)
  {
    if e.tag == AD_TYPE_FLAGS then r.(flags := e.data[0])
    else if e.tag == AD_TYPE_COMPLETE_UUID16 then
      if Lists(e.data, HUMAN_INTERFACE_DEVICE) then r.(service := HUMAN_INTERFACE_DEVICE) else r
    else if e.tag == AD_TYPE_APPEARANCE then r.(appearance := Read16(e.data, 0))
    else r
  }

  function Reported(elements: seq<Element>): Report
    requires AllValid(elements)
  {
    if elements == [] then Report(0, 0, 0)
    else Note(Reported(elements[..|elements| - 1]), elements[|elements| - 1])
  }

  // ---------- The walk on arbitrary octets ----------

  /** The service of pair `k` of the list at `i` lies inside the data and is the one looked for. */
  predicate Wanted(ad: Bytes, i: nat, k: nat) {
    i + 2 * k + 3 < |ad| && Read16(ad, i + 2 * k + 2) == HUMAN_INTERFACE_DEVICE
  }

  /** The loop over a list of `n` pairs finds the service. */
  predicate FindsService(ad: Bytes, i: nat, n: nat) {
    exists k :: 0 <= k < n && Wanted(ad, i, k)
  }

  /** The octets read by the loop over the pairs of a list, from pair `k`, in order; it ends with
      the first octet that is not there. */
  function SearchReads(ad: Bytes, i: nat, n: nat, k: nat): seq<nat>
    decreases n - k
  {
    if k >= n then []
    else
      [i + 2 * k + 3, i + 2 * k + 2]
      + if i + 2 * k + 3 >= |ad| || Wanted(ad, i, k) then [] else SearchReads(ad, i, n, k + 1)
  }

  /** The octets read in one turn of the walk. An odd octet at the end of a list is read as half a pair. */
  function Reads(ad: Bytes, i: nat): seq<nat>
    requires i < |ad|
  {
    [i, i + 1] +
    if i + 1 >= |ad| then []
    else if ad[i + 1] == AD_TYPE_FLAGS then [i + 2]
    else if ad[i + 1] == AD_TYPE_COMPLETE_UUID16 then SearchReads(ad, i, ad[i] / 2, 0)
    else if ad[i + 1] == AD_TYPE_APPEARANCE then [i + 3, i + 2]
    else []
  }

  predicate AllInside(octets: seq<nat>, size: nat) {
    forall k :: 0 <= k < |octets| ==> octets[k] < size
  }

  /** What a turn notes, if all it reads is there. */
  function NoteAt(ad: Bytes, i: nat, r: Report): Report
    requires i < |ad| && ElementInside(ad, i)
  {
    if ad[i + 1] == AD_TYPE_FLAGS then r.(flags := ad[i + 2])
    else if ad[i + 1] == AD_TYPE_COMPLETE_UUID16 then
      if FindsService(ad, i, ad[i] / 2) then r.(service := HUMAN_INTERFACE_DEVICE) else r
    else if ad[i + 1] == AD_TYPE_APPEARANCE then r.(appearance := Read16(ad, i + 2))
    else r
  }

  datatype Walk = Ended(report: Report) | Outside

  /** The walk from octet `i`, as far as what it reads is there. */
  function WalkFrom(ad: Bytes, i: nat, r: Report): Walk
    decreases if i <= |ad| then |ad| - i else 0
  {
    if i >= |ad| then Ended(r)
    else if !AllInside(Reads(ad, i), |ad|) then Outside
    else
      TurnInsideIff(ad, i);
      WalkFrom(ad, i + ad[i] + 1, NoteAt(ad, i, r))
  }

  /** The type octet is there, and the octets its type needs; of a list of services, the whole
      of it or the service looked for. Nothing is asked of the element's own length. */
  predicate ElementInside(ad: Bytes, i: nat)
    requires i < |ad|
  {
    && i + 1 < |ad|
    && (ad[i + 1] == AD_TYPE_FLAGS ==> i + 2 < |ad|)
    && (ad[i + 1] == AD_TYPE_COMPLETE_UUID16 ==>
          ad[i] / 2 == 0 || i + 2 * (ad[i] / 2) + 1 < |ad| || FindsService(ad, i, ad[i] / 2))
    && (ad[i + 1] == AD_TYPE_APPEARANCE ==> i + 3 < |ad|)
  }

  predicate StaysInside(ad: Bytes, i: nat)
    decreases if i <= |ad| then |ad| - i else 0
  {
    i < |ad| ==> ElementInside(ad, i) && StaysInside(ad, i + ad[i] + 1)
  }

  lemma {:induction false} AllInsideAppend(a: seq<nat>, b: seq<nat>, size: nat)
    ensures AllInside(a + b, size) <==> AllInside(a, size) && AllInside(b, size)
  {
    if AllInside(a + b, size) {
      assert forall k :: 0 <= k < |a| ==> a[k] == (a + b)[k];
      assert forall k :: 0 <= k < |b| ==> b[k] == (a + b)[|a| + k];
    }
  }

  lemma {:induction false} TwoInside(a: nat, b: nat, size: nat)
    ensures AllInside([a, b], size) <==> a < size && b < size
  {
    assert [a, b][0] == a && [a, b][1] == b;
  }

  lemma {:induction false} SearchInsideIff(ad: Bytes, i: nat, n: nat, k: nat)
    requires k <= n && forall j :: 0 <= j < k ==> !Wanted(ad, i, j)
    ensures AllInside(SearchReads(ad, i, n, k), |ad|) <==> k == n || i + 2 * n + 1 < |ad| || FindsService(ad, i, n)
    decreases n - k
  {
    hide Wanted, AllInside;
    if k < n {
      var here := [i + 2 * k + 3, i + 2 * k + 2];
      TwoInside(i + 2 * k + 3, i + 2 * k + 2, |ad|);
      WantedInside(ad, i, k);
      if Wanted(ad, i, k) || i + 2 * k + 3 >= |ad| {
        assert here + [] == here;
        if !Wanted(ad, i, k) {
          NoneWanted(ad, i, k, n);
        }
      } else {
        AllInsideAppend(here, SearchReads(ad, i, n, k + 1), |ad|);
        SearchInsideIff(ad, i, n, k + 1);
      }
    } else {
      NothingInside(|ad|);
    }
  }

  lemma {:induction false} NothingInside(size: nat)
    ensures AllInside([], size)
  {
  }

  lemma {:induction false} WantedInside(ad: Bytes, i: nat, k: nat)
    ensures Wanted(ad, i, k) ==> i + 2 * k + 3 < |ad|
  {
  }

  /** Past the end of the data nothing is found. */
  lemma {:induction false} NoneWanted(ad: Bytes, i: nat, k: nat, n: nat)
    requires i + 2 * k + 3 >= |ad| && forall j :: 0 <= j < k ==> !Wanted(ad, i, j)
    ensures !FindsService(ad, i, n)
  {
  }

  /** A turn reads only inside the data if and only if the octets its type needs are there. */
  lemma {:induction false} TurnInsideIff(ad: Bytes, i: nat)
    requires i < |ad|
    ensures AllInside(Reads(ad, i), |ad|) <==> ElementInside(ad, i)
  {
    hide AllInside, FindsService, SearchReads;
    TwoInside(i, i + 1, |ad|);
    TwoInside(i + 3, i + 2, |ad|);
    TwoInside(i + 2, i + 2, |ad|);
    OneInside(i + 2, |ad|);
    NothingInside(|ad|);
    if i + 1 < |ad| {
      SearchInsideIff(ad, i, ad[i] / 2, 0);
      AllInsideAppend([i, i + 1], SearchReads(ad, i, ad[i] / 2, 0), |ad|);
      AllInsideAppend([i, i + 1], [i + 2], |ad|);
      AllInsideAppend([i, i + 1], [i + 3, i + 2], |ad|);
    }
    AllInsideAppend([i, i + 1], [], |ad|);
  }

  lemma {:induction false} OneInside(a: nat, size: nat)
    ensures AllInside([a], size) <==> a < size
  {
    assert [a][0] == a;
  }

  /** For any octets: the walk ends without reading outside the data if and only if at every
      element on its way the octets the element's type needs are there. */
  lemma {:induction false} WalkEndsIff(ad: Bytes, i: nat, r: Report)
    ensures WalkFrom(ad, i, r).Ended? <==> StaysInside(ad, i)
    decreases if i <= |ad| then |ad| - i else 0
  {
    hide AllInside, Reads, ElementInside, NoteAt;
    if i < |ad| {
      TurnInsideIff(ad, i);
      if ElementInside(ad, i) {
        WalkEndsIff(ad, i + ad[i] + 1, NoteAt(ad, i, r));
      }
    }
  }

  /** On well-formed data the walk ends, having noted exactly the elements. */
  lemma {:induction false} WellFormedWalk(ad: Bytes, i: nat, visited: seq<Element>)
    requires i <= |ad| && WellFormed(ad[i..]) && AllValid(visited)
    ensures AllValid(visited + ElementsOf(ad[i..]))
    ensures WalkFrom(ad, i, Reported(visited)) == Ended(Reported(visited + ElementsOf(ad[i..])))
    decreases |ad| - i
  {
    hide WellFormed, ElementsOf, First, Reported, AllValid, StartsWhole, Valid, WalkFrom, NoteAt, ElementInside;
    if i < |ad| {
      VisitNext(ad, i);
      var e, next := First(ad[i..]), i + ad[i] + 1;
      NoteFirst(ad, i, Reported(visited));
      WalkStep(ad, i, Reported(visited));
      ReportedAppend(visited, e);
      WellFormedWalk(ad, next, visited + [e]);
      AppendAssociates(visited, [e], ElementsOf(ad[next..]));
    } else {
      WalkOver(ad, i, Reported(visited));
      assert visited + [] == visited;
    }
  }

  lemma {:induction false} WalkStep(ad: Bytes, i: nat, r: Report)
    requires i < |ad| && ElementInside(ad, i)
    ensures WalkFrom(ad, i, r) == WalkFrom(ad, i + ad[i] + 1, NoteAt(ad, i, r))
  {
    TurnInsideIff(ad, i);
    hide AllInside, Reads, ElementInside, NoteAt;
  }

  lemma {:induction false} WalkOver(ad: Bytes, i: nat, r: Report)
    requires i >= |ad|
    ensures WalkFrom(ad, i, r) == Ended(r) && (i == |ad| ==> WellFormed(ad[i..]) && ElementsOf(ad[i..]) == [])
  {
  }

  /** A whole element is inside, and what is noted of it is what it says. */
  lemma {:induction false} NoteFirst(ad: Bytes, i: nat, r: Report)
    requires i < |ad| && StartsWhole(ad[i..]) && Valid(First(ad[i..]))
    ensures ElementInside(ad, i) && NoteAt(ad, i, r) == Note(r, First(ad[i..]))
  {
    ElementOctets(ad, i);
    if ad[i + 1] == AD_TYPE_COMPLETE_UUID16 {
      FindsAsListed(ad, i, First(ad[i..]).data);
    }
    hide StartsWhole, First, Lists, Read16, FindsService;
  }

  lemma {:induction false} FindsAsListed(ad: Bytes, i: nat, data: Bytes)
    requires i < |ad| && 1 <= ad[i] && i + ad[i] + 1 <= |ad| && data == ad[i + 2..i + ad[i] + 1] && |data| % 2 == 0
    ensures FindsService(ad, i, ad[i] / 2) == Lists(data, HUMAN_INTERFACE_DEVICE)
  {
    assert |data| / 2 == ad[i] / 2;
    forall k | 0 <= k < |data| / 2 ensures Wanted(ad, i, k) == (Read16(data, 2 * k) == HUMAN_INTERFACE_DEVICE) {
      assert data[2 * k] == ad[i + 2 * k + 2] && data[2 * k + 1] == ad[i + 2 * k + 3];
    }
  }

  // ---------- Walking in place ----------

  /** The inner loop over the list of services of the element at `i`. */
  method SearchServices(ad: Bytes, i: nat, length: uint8, before: uint16) returns (service: uint16)
    requires length / 2 == 0 || i + 2 * (length / 2) + 1 < |ad| || FindsService(ad, i, length / 2)
    ensures service == if FindsService(ad, i, length / 2) then HUMAN_INTERFACE_DEVICE else before
  {
    service := before;
    var j := 0;
    while j < length - 1
      invariant j % 2 == 0 && j / 2 <= length / 2 && service == before
      invariant forall k :: 0 <= k < j / 2 ==> !Wanted(ad, i, k)
    {
      PairIsInside(ad, i, length / 2, j / 2);
      var high: int := ad[i + j + 3];
      var found := high * 0x100 + ad[i + j + 2];
      assert Wanted(ad, i, j / 2) <==> found == HUMAN_INTERFACE_DEVICE;
      if found == HUMAN_INTERFACE_DEVICE {
        service := HUMAN_INTERFACE_DEVICE;
        return;
      }
      j := j + 2;
    }
  }

  lemma {:induction false} PairIsInside(ad: Bytes, i: nat, n: nat, k: nat)
    requires k < n && (i + 2 * n + 1 < |ad| || FindsService(ad, i, n))
    requires forall j :: 0 <= j < k ==> !Wanted(ad, i, j)
    ensures i + 2 * k + 3 < |ad|
  {
    if i + 2 * k + 3 >= |ad| {
      NoneWanted(ad, i, k, n);
    }
  }

  /** One element of the walk. */
  method HandleElement(ad: Bytes, i: nat, before: Report) returns (after: Report)
    requires i < |ad| && ElementInside(ad, i)
    ensures after == NoteAt(ad, i, before)
  {
    hide FindsService;
    after := before;
    var length := ad[i];
    if ad[i + 1] == AD_TYPE_FLAGS {
      after := after.(flags := ad[i + 2]);
    } else if ad[i + 1] == AD_TYPE_COMPLETE_UUID16 {
      var service := SearchServices(ad, i, length, after.service);
      after := after.(service := service);
    } else if ad[i + 1] == AD_TYPE_APPEARANCE {
      after := after.(appearance := Read16(ad, i + 2));
    }
  }

  predicate IsRemoteControl(r: Report) {
    r.flags != 0 && (r.service == HUMAN_INTERFACE_DEVICE || r.appearance == GENERIC_REMOTE_CONTROL)
  }

  // ---------- What a remote control says of itself ----------

  /** Element `k` is the last of its type. */
  predicate LastOf(elements: seq<Element>, tag: uint8, k: int) {
    && 0 <= k < |elements| && elements[k].tag == tag
    && forall j :: k < j < |elements| ==> elements[j].tag != tag
  }

  /** The last flags are not zero, and either a complete list of services holds the HID service,
      0x1812, or the last appearance is a generic remote control, 0x0180. */
  predicate Offers(elements: seq<Element>)
    requires AllValid(elements)
  {
    OffersFlags(elements) && (OffersHid(elements) || OffersAppearance(elements))
  }

  predicate OffersFlags(elements: seq<Element>)
    requires AllValid(elements)
  {
    exists k :: 0 <= k < |elements| && LastOf(elements, 0x01, k) && elements[k].data[0] != 0
  }

  predicate OffersHid(elements: seq<Element>) {
    exists k :: 0 <= k < |elements| && elements[k].tag == 0x03 && HoldsHid(elements[k].data)
  }

  predicate OffersAppearance(elements: seq<Element>)
    requires AllValid(elements)
  {
    exists k :: 0 <= k < |elements| && LastOf(elements, 0x19, k) && elements[k].data[0] == 0x80 && elements[k].data[1] == 0x01
  }

  predicate HoldsHid(data: Bytes) {
    exists n :: 0 <= n < |data| / 2 && PairAt(data, n) == (0x12, 0x18)
  }

  function PairAt(data: Bytes, n: nat): (uint8, uint8)
    requires n < |data| / 2
  {
    (data[2 * n], data[2 * n + 1])
  }

  lemma {:induction false} HoldsHidIff(data: Bytes)
    requires |data| % 2 == 0
    ensures HoldsHid(data) <==> Lists(data, HUMAN_INTERFACE_DEVICE)
  {
    forall n | 0 <= n < |data| / 2 ensures PairAt(data, n) == (0x12, 0x18) <==> Read16(data, 2 * n) == HUMAN_INTERFACE_DEVICE {
    }
  }

  /** What is noted of elements: the last flags, the last appearance, and the HID service if any
      complete list has it. */
  lemma {:induction false} FlagsAre(elements: seq<Element>)
    requires AllValid(elements)
    ensures Reported(elements).flags != 0 <==> OffersFlags(elements)
  {
    hide Lists, Read16;
    if elements != [] {
      var n := |elements| - 1;
      FlagsAre(elements[..n]);
      LastIff(elements, 0x01);
    }
  }

  lemma {:induction false} AppearanceIs(elements: seq<Element>)
    requires AllValid(elements)
    ensures Reported(elements).appearance == GENERIC_REMOTE_CONTROL <==> OffersAppearance(elements)
  {
    hide Lists;
    if elements != [] {
      var n := |elements| - 1;
      AppearanceIs(elements[..n]);
      LastIff(elements, 0x19);
    }
  }

  lemma {:induction false} ServiceIs(elements: seq<Element>)
    requires AllValid(elements)
    ensures Reported(elements).service == HUMAN_INTERFACE_DEVICE <==> OffersHid(elements)
  {
    hide Lists, Read16, HoldsHid;
    if elements != [] {
      var n := |elements| - 1;
      ServiceIs(elements[..n]);
      if elements[n].tag == 0x03 {
        HoldsHidIff(elements[n].data);
      }
      if OffersHid(elements[..n]) {
        var k :| 0 <= k < n && elements[..n][k].tag == 0x03 && HoldsHid(elements[..n][k].data);
        assert elements[k] == elements[..n][k];
      }
    }
  }

  /** The last of a type is the last element, if it is of that type, or else the last before it. */
  lemma {:induction false} LastIff(elements: seq<Element>, tag: uint8)
    requires elements != []
    ensures var n := |elements| - 1;
            forall k :: LastOf(elements, tag, k) <==>
                          if elements[n].tag == tag then k == n else LastOf(elements[..n], tag, k)
  {
    var n := |elements| - 1;
    forall k
      ensures LastOf(elements, tag, k) <==> if elements[n].tag == tag then k == n else LastOf(elements[..n], tag, k)
    {
      if LastOf(elements[..n], tag, k) && elements[n].tag != tag {
        assert forall j :: k < j < n ==> elements[j] == elements[..n][j];
      }
    }
  }

  /** A device is taken for a remote control if and only if its elements say so. */
  lemma {:induction false} RemoteControlIff(elements: seq<Element>)
    requires AllValid(elements)
    ensures IsRemoteControl(Reported(elements)) <==> Offers(elements)
  {
    FlagsAre(elements);
    AppearanceIs(elements);
    ServiceIs(elements);
    hide Reported, OffersFlags, OffersHid, OffersAppearance;
  }

  // ---------- The same of any octets ----------

  /** The offsets at which the walk takes an element to begin. */
  function Stops(ad: Bytes, i: nat): seq<nat>
    decreases if i <= |ad| then |ad| - i else 0
  {
    if i >= |ad| then [] else [i] + Stops(ad, i + ad[i] + 1)
  }

  predicate TypeAt(ad: Bytes, i: nat, tag: uint8) {
    i + 1 < |ad| && ad[i + 1] == tag
  }

  /** Stop `k` is the last of its type. */
  predicate LastStop(ad: Bytes, stops: seq<nat>, tag: uint8, k: int) {
    && 0 <= k < |stops| && TypeAt(ad, stops[k], tag)
    && forall j :: k < j < |stops| ==> !TypeAt(ad, stops[j], tag)
  }

  /** One of the pairs of octets that the list at `i` announces is the HID service. */
  predicate HidAt(ad: Bytes, i: nat) {
    i < |ad| && exists n :: 0 <= n < ad[i] / 2 && HidPair(ad, i, n)
  }

  predicate HidPair(ad: Bytes, i: nat, n: nat) {
    i + 2 * n + 3 < |ad| && ad[i + 2 * n + 2] == 0x12 && ad[i + 2 * n + 3] == 0x18
  }

  /** What `Offers` says of elements, for the stops of a walk. */
  predicate OffersAt(ad: Bytes, stops: seq<nat>) {
    HasFlags(ad, stops) && (HasHid(ad, stops) || HasAppearance(ad, stops))
  }

  predicate HasFlags(ad: Bytes, stops: seq<nat>) {
    exists k :: 0 <= k < |stops| && LastStop(ad, stops, 0x01, k) && stops[k] + 2 < |ad| && ad[stops[k] + 2] != 0
  }

  predicate HasHid(ad: Bytes, stops: seq<nat>) {
    exists k :: 0 <= k < |stops| && TypeAt(ad, stops[k], 0x03) && HidAt(ad, stops[k])
  }

  predicate HasAppearance(ad: Bytes, stops: seq<nat>) {
    exists k :: 0 <= k < |stops| && LastStop(ad, stops, 0x19, k) && stops[k] + 3 < |ad|
                && ad[stops[k] + 2] == 0x80 && ad[stops[k] + 3] == 0x01
  }

  lemma {:induction false} HidIsFound(ad: Bytes, i: nat)
    requires i < |ad|
    ensures HidAt(ad, i) <==> FindsService(ad, i, ad[i] / 2)
  {
    forall n | 0 <= n < ad[i] / 2 ensures HidPair(ad, i, n) <==> Wanted(ad, i, n) {
    }
  }

  predicate NoneOf(ad: Bytes, stops: seq<nat>, tag: uint8) {
    forall k :: 0 <= k < |stops| ==> !TypeAt(ad, stops[k], tag)
  }

  /** The walk notes the flags of the last stop with any, the appearance of the last with one, and
      the HID service if any list has it. */
  ghost predicate FlagsNoted(ad: Bytes, stops: seq<nat>, before: Report, after: Report) {
    && (forall k :: LastStop(ad, stops, 0x01, k) ==> stops[k] + 2 < |ad| && after.flags == ad[stops[k] + 2])
    && (NoneOf(ad, stops, 0x01) ==> after.flags == before.flags)
  }

  ghost predicate AppearanceNoted(ad: Bytes, stops: seq<nat>, before: Report, after: Report) {
    && (forall k :: LastStop(ad, stops, 0x19, k) ==> stops[k] + 3 < |ad| && after.appearance == Read16(ad, stops[k] + 2))
    && (NoneOf(ad, stops, 0x19) ==> after.appearance == before.appearance)
  }

  predicate ServiceNoted(ad: Bytes, stops: seq<nat>, before: Report, after: Report) {
    after.service == if HasHid(ad, stops) then 0x1812 else before.service
  }

  /** The last stop of a type is among the rest, or is the first and alone. */
  lemma {:induction false} LastAfter(ad: Bytes, first: nat, rest: seq<nat>, tag: uint8)
    ensures var stops := [first] + rest;
            && (NoneOf(ad, stops, tag) <==> !TypeAt(ad, first, tag) && NoneOf(ad, rest, tag))
            && forall k :: LastStop(ad, stops, tag, k) ==>
                 if k == 0 then TypeAt(ad, first, tag) && NoneOf(ad, rest, tag)
                 else LastStop(ad, rest, tag, k - 1) && stops[k] == rest[k - 1]
  {
    hide TypeAt;
    var stops := [first] + rest;
    assert stops[0] == first && forall j :: 0 <= j < |rest| ==> rest[j] == stops[j + 1];
    forall k | LastStop(ad, stops, tag, k)
      ensures if k == 0 then TypeAt(ad, first, tag) && NoneOf(ad, rest, tag)
              else LastStop(ad, rest, tag, k - 1) && stops[k] == rest[k - 1]
    {
      assert forall j :: k < j < |stops| ==> stops[j] == rest[j - 1];
      if k > 0 {
        assert rest[k - 1] == stops[k];
      }
    }
  }

  lemma {:induction false} FlagsFirst(ad: Bytes, i: nat, rest: seq<nat>, r: Report, after: Report)
    requires i < |ad| && ElementInside(ad, i) && FlagsNoted(ad, rest, NoteAt(ad, i, r), after)
    ensures FlagsNoted(ad, [i] + rest, r, after)
  {
    LastAfter(ad, i, rest, 0x01);
    hide LastStop, NoneOf, FindsService, Read16;
  }

  lemma {:induction false} AppearanceFirst(ad: Bytes, i: nat, rest: seq<nat>, r: Report, after: Report)
    requires i < |ad| && ElementInside(ad, i) && AppearanceNoted(ad, rest, NoteAt(ad, i, r), after)
    ensures AppearanceNoted(ad, [i] + rest, r, after)
  {
    LastAfter(ad, i, rest, 0x19);
    hide LastStop, NoneOf, FindsService, Read16;
  }

  lemma {:induction false} ServiceFirst(ad: Bytes, i: nat, rest: seq<nat>, r: Report, after: Report)
    requires i < |ad| && ElementInside(ad, i) && ServiceNoted(ad, rest, NoteAt(ad, i, r), after)
    ensures ServiceNoted(ad, [i] + rest, r, after)
  {
    HidIsFound(ad, i);
    var stops := [i] + rest;
    assert stops[0] == i && forall j :: 0 <= j < |rest| ==> rest[j] == stops[j + 1];
    hide HidAt, FindsService, Read16;
    if HasHid(ad, rest) {
      var k :| 0 <= k < |rest| && TypeAt(ad, rest[k], 0x03) && HidAt(ad, rest[k]);
      assert stops[k + 1] == rest[k];
    }
    if HasHid(ad, stops) && !(TypeAt(ad, i, 0x03) && HidAt(ad, i)) {
      var k :| 0 <= k < |stops| && TypeAt(ad, stops[k], 0x03) && HidAt(ad, stops[k]);
      assert k > 0 && rest[k - 1] == stops[k];
    }
  }

  lemma {:induction false} NotedAlong(ad: Bytes, i: nat, r: Report)
    requires StaysInside(ad, i)
    ensures var w := WalkFrom(ad, i, r);
            w.Ended? && FlagsNoted(ad, Stops(ad, i), r, w.report) && AppearanceNoted(ad, Stops(ad, i), r, w.report)
            && ServiceNoted(ad, Stops(ad, i), r, w.report)
    decreases if i <= |ad| then |ad| - i else 0
  {
    if i < |ad| {
      var next, noted := i + ad[i] + 1, NoteAt(ad, i, r);
      TurnInsideIff(ad, i);
      NotedAlong(ad, next, noted);
      hide ElementInside, NoteAt, FlagsNoted, AppearanceNoted, ServiceNoted, AllInside, Reads;
      var after := WalkFrom(ad, next, noted).report;
      FlagsFirst(ad, i, Stops(ad, next), r, after);
      AppearanceFirst(ad, i, Stops(ad, next), r, after);
      ServiceFirst(ad, i, Stops(ad, next), r, after);
    }
  }

  lemma {:induction false} LastStopExists(ad: Bytes, stops: seq<nat>, tag: uint8) returns (k: int)
    requires exists j :: 0 <= j < |stops| && TypeAt(ad, stops[j], tag)
    ensures LastStop(ad, stops, tag, k)
  {
    k := |stops| - 1;
    while !TypeAt(ad, stops[k], tag)
      invariant 0 <= k < |stops| && forall j :: k < j < |stops| ==> !TypeAt(ad, stops[j], tag)
      invariant exists j :: 0 <= j <= k && TypeAt(ad, stops[j], tag)
      decreases k
    {
      k := k - 1;
    }
  }

  /** For any octets on which the walk stays inside: the device is taken for a remote control if and
      only if the stops of the walk say so. */
  lemma {:induction false} TakenIff(ad: Bytes)
    requires StaysInside(ad, 0)
    ensures WalkFrom(ad, 0, Report(0, 0, 0)).Ended?
    ensures IsRemoteControl(WalkFrom(ad, 0, Report(0, 0, 0)).report) <==> OffersAt(ad, Stops(ad, 0))
  {
    NotedAlong(ad, 0, Report(0, 0, 0));
    FlagsIff(ad, Stops(ad, 0), WalkFrom(ad, 0, Report(0, 0, 0)).report);
    AppearanceIff(ad, Stops(ad, 0), WalkFrom(ad, 0, Report(0, 0, 0)).report);
    hide Stops, WalkFrom, StaysInside, HasFlags, HasHid, HasAppearance, FlagsNoted, AppearanceNoted;
  }

  lemma {:induction false} FlagsIff(ad: Bytes, stops: seq<nat>, r: Report)
    requires FlagsNoted(ad, stops, Report(0, 0, 0), r)
    ensures r.flags != 0 <==> HasFlags(ad, stops)
  {
    hide TypeAt;
    if !NoneOf(ad, stops, 0x01) {
      var k := LastStopExists(ad, stops, 0x01);
      hide LastStop;
    }
  }

  lemma {:induction false} AppearanceIff(ad: Bytes, stops: seq<nat>, r: Report)
    requires AppearanceNoted(ad, stops, Report(0, 0, 0), r)
    ensures r.appearance == GENERIC_REMOTE_CONTROL <==> HasAppearance(ad, stops)
  {
    hide TypeAt;
    if !NoneOf(ad, stops, 0x19) {
      var k := LastStopExists(ad, stops, 0x19);
      hide LastStop;
    }
  }

  /** handle_ble_connectable_discoverable_adverts, wherever the walk stays inside the data: whether
      the device is taken for a remote control; on well-formed data, by its elements. */
  method HandleAdverts(ad: Bytes) returns (remoteControl: bool)
    requires StaysInside(ad, 0)
    ensures remoteControl == OffersAt(ad, Stops(ad, 0))
    ensures WellFormed(ad) ==> AllValid(ElementsOf(ad)) && remoteControl == Offers(ElementsOf(ad))
  {
    var r := Report(0, 0, 0);
    TakenIff(ad);
    if WellFormed(ad) {
      ReportOfElements(ad);
      RemoteControlIff(ElementsOf(ad));
    }
    hide Offers, OffersAt, Stops, WellFormed, ElementsOf, Reported, AllValid, ElementInside, NoteAt;
    var i := 0;
    while i < |ad|
      invariant StaysInside(ad, i)
      invariant WalkFrom(ad, i, r) == WalkFrom(ad, 0, Report(0, 0, 0))
      decreases if i <= |ad| then |ad| - i else 0
    {
      TurnInsideIff(ad, i);
      var length := ad[i];
      r := HandleElement(ad, i, r);
      i := i + length;
      i := i + 1;
    }
    if r.flags == 0 {
      return false;
    }
    if r.service == HUMAN_INTERFACE_DEVICE {
      return true;
    }
    remoteControl := r.appearance == GENERIC_REMOTE_CONTROL;
  }

  lemma {:induction false} ReportOfElements(ad: Bytes)
    requires WellFormed(ad)
    ensures AllValid(ElementsOf(ad))
    ensures WalkFrom(ad, 0, Report(0, 0, 0)) == Ended(Reported(ElementsOf(ad)))
  {
    assert ad[0..] == ad;
    WellFormedWalk(ad, 0, []);
    assert [] + ElementsOf(ad) == ElementsOf(ad);
  }

  /** The octets of an element are those of the data it lies in. */
  lemma {:induction false} ElementOctets(ad: Bytes, i: nat)
    requires i < |ad| && StartsWhole(ad[i..]) && Valid(First(ad[i..]))
    ensures var e := First(ad[i..]);
            var next := i + ad[i] + 1;
            && i + 2 <= next <= |ad| && e.tag == ad[i + 1] && e.data == ad[i + 2..next]
            && (e.tag == AD_TYPE_FLAGS ==> next >= i + 3 && e.data[0] == ad[i + 2])
            && (e.tag == AD_TYPE_APPEARANCE ==> next >= i + 4 && Read16(e.data, 0) == Read16(ad, i + 2))
            && (e.tag == AD_TYPE_COMPLETE_UUID16 ==> (next - i - 2) % 2 == 0)
  {
    var next := i + ad[i] + 1;
    assert ad[i..][AD_DATA_HEADER_SIZE..ad[i] + 1] == ad[i + 2..next];
  }

  lemma {:induction false} ReportedAppend(elements: seq<Element>, e: Element)
    requires AllValid(elements) && Valid(e)
    ensures AllValid(elements + [e]) && Reported(elements + [e]) == Note(Reported(elements), e)
  {
    assert (elements + [e])[..|elements|] == elements;
  }

  /** The element at `i` of well-formed data. */
  lemma {:induction false} VisitNext(ad: Bytes, i: nat)
    requires i < |ad| && WellFormed(ad[i..])
    ensures var next := i + ad[i] + 1;
            && i + 2 <= next <= |ad|
            && StartsWhole(ad[i..]) && Valid(First(ad[i..]))
            && First(ad[i..]) == Element(ad[i + 1], ad[i + 2..next])
            && WellFormed(ad[next..])
            && ElementsOf(ad[i..]) == [First(ad[i..])] + ElementsOf(ad[next..])
  {
    hide Valid;
    var rest := ad[i..];
    var next := i + ad[i] + 1;
    assert rest[rest[0] + 1..] == ad[next..];
    assert rest[AD_DATA_HEADER_SIZE..rest[0] + 1] == ad[i + 2..next];
  }
}
