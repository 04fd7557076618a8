/** The folder item lists of apps/sink/sink_avrcp_browsing.c (AVRCP 1.5, section 6.10.4.2): each
    item a type, a length and a body; a media element's body holds an attribute list. */
module FolderItems {
  import opened Ints
  import opened Seqs
  import opened AttributeList

  const TYPE_MEDIA_PLAYER: uint8 := 1
  const TYPE_FOLDER: uint8 := 2
  const TYPE_MEDIA_ELEMENT: uint8 := 3

  const ITEM_HEADER_SIZE := 3
  const MEDIA_PLAYER_HEADER_SIZE := 28
  const MEDIA_ELEMENT_HEADER_SIZE := 14
  const FOLDER_HEADER_SIZE := 14

  datatype Item =
    | Player(id: uint16, major: uint8, sub: uint32, status: uint8, features: Bytes, charset: uint16, name: Bytes)
    | Folder(msb: uint32, lsb: uint32, folderType: uint8, playable: uint8, charset: uint16, name: Bytes)
    | Element(msb: uint32, lsb: uint32, mediaType: uint8, charset: uint16, name: Bytes, attributes: seq<Attribute>)
    | Other(otherType: uint8, body: Bytes)

  // ---------- Writing lists ----------

  function ItemType(item: Item): uint8 {
    match item
    case Player(_, _, _, _, _, _, _) => TYPE_MEDIA_PLAYER
    case Folder(_, _, _, _, _, _) => TYPE_FOLDER
    case Element(_, _, _, _, _, _) => TYPE_MEDIA_ELEMENT
    case Other(t, _) => t
  }

  /** The parts of an item are what the format can hold. */
  predicate WellFormed(item: Item) {
    && (item.Player? ==> |item.features| == 16)
    && (!item.Other? ==> |item.name| < TWO_16)
    && (item.Element? ==> |item.attributes| < 0x100 && AllValid(item.attributes))
    && (item.Other? ==> item.otherType == 0 || item.otherType > TYPE_MEDIA_ELEMENT)
  }

  /** The fixed part of each kind of body. */
  function PlayerHeader(item: Item): Bytes
    requires WellFormed(item) && item.Player?
  {
    Write16(item.id) + [item.major] + Write32(item.sub) + [item.status] + item.features
    + Write16(item.charset) + Write16(|item.name|)
  }

  function FolderHeader(item: Item): Bytes
    requires WellFormed(item) && item.Folder?
  {
    Write32(item.msb) + Write32(item.lsb) + [item.folderType, item.playable]
    + Write16(item.charset) + Write16(|item.name|)
  }

  function ElementHeader(item: Item): Bytes
    requires WellFormed(item) && item.Element?
  {
    Write32(item.msb) + Write32(item.lsb) + [item.mediaType] + Write16(item.charset) + Write16(|item.name|)
  }

  function Body(item: Item): Bytes
    requires WellFormed(item)
  {
    match item
    case Player(_, _, _, _, _, _, name) => PlayerHeader(item) + name
    case Folder(_, _, _, _, _, name) => FolderHeader(item) + name
    case Element(_, _, _, _, name, attributes) =>
      ElementHeader(item) + name + [|attributes|] + AttributeList.EncodeAll(attributes)
    case Other(_, body) => body
  }

  predicate ValidItem(item: Item) {
    WellFormed(item) && |Body(item)| < TWO_16
  }

  predicate AllValidItems(items: seq<Item>) {
    forall i :: 0 <= i < |items| ==> ValidItem(items[i])
  }

  function EncodeItem(item: Item): Bytes
    requires ValidItem(item)
  {
    [ItemType(item)] + Write16(|Body(item)|) + Body(item)
  }

  function EncodeItems(items: seq<Item>): Bytes
    requires AllValidItems(items)
  {
    if items == [] then [] else EncodeItem(items[0]) + EncodeItems(items[1..])
  }

  // ---------- Reading lists ----------

  /** An item body that starts `item`; the bytes run on to the end of the list. A name longer
      than that is clipped, but a media element with such a name is discarded. */
  function ParsePlayer(item: Bytes): seq<Item> {
    if |item| < MEDIA_PLAYER_HEADER_SIZE then []
    else
      var end := MEDIA_PLAYER_HEADER_SIZE + Read16(item, 26);
      [Player(Read16(item, 0), item[2], Read32(item, 3), item[7], item[8..24], Read16(item, 24),
              item[MEDIA_PLAYER_HEADER_SIZE..if end > |item| then |item| else end])]
  }

  function ParseFolder(item: Bytes): seq<Item> {
    if |item| < FOLDER_HEADER_SIZE then []
    else
      var end := FOLDER_HEADER_SIZE + Read16(item, 12);
      [Folder(Read32(item, 0), Read32(item, 4), item[8], item[9], Read16(item, 10),
              item[FOLDER_HEADER_SIZE..if end > |item| then |item| else end])]
  }

  function UpTo<T>(s: seq<T>, n: nat): seq<T> {
    if n < |s| then s[..n] else s
  }

  function ParseElement(item: Bytes): seq<Item> {
    if |item| < MEDIA_ELEMENT_HEADER_SIZE || Read16(item, 11) > |item| - MEDIA_ELEMENT_HEADER_SIZE then []
    else
      var end := 13 + Read16(item, 11);
      [Element(Read32(item, 0), Read32(item, 4), item[8], Read16(item, 9), item[13..end],
               UpTo(AttributesOf(item[end + 1..]), item[end]))]
  }

  function Dispatch(itemType: uint8, item: Bytes): seq<Item> {
    if itemType == TYPE_MEDIA_ELEMENT then ParseElement(item)
    else if itemType == TYPE_MEDIA_PLAYER then ParsePlayer(item)
    else if itemType == TYPE_FOLDER then ParseFolder(item)
    else []
  }

  /** What the outer loop hands on from a list, item by item. */
  function ItemsOf(list: Bytes): seq<Item> {
    if |list| < ITEM_HEADER_SIZE then []
    else
      var next := ITEM_HEADER_SIZE + Read16(list, 1);
      Dispatch(list[0], list[ITEM_HEADER_SIZE..]) + if next > |list| then [] else ItemsOf(list[next..])
  }

  /** Where the item at `i` ends, in unbounded arithmetic. */
  function ItemEnd(list: Bytes, i: nat): nat
    requires i + ITEM_HEADER_SIZE <= |list|
  {
    i + ITEM_HEADER_SIZE + Read16(list, i + 1)
  }

  /** The outer loop serves the list from offset `i`: as long as offsets fit in 16 bits it goes on
      to the next item, and where one does not, the wrapped test still ends it. */
  predicate OffsetsFit(list: Bytes, i: nat)
    decreases if i <= |list| then |list| - i else 0
  {
    i + ITEM_HEADER_SIZE <= |list| ==>
      var next := ItemEnd(list, i);
      if next + ITEM_HEADER_SIZE < TWO_16 then OffsetsFit(list, next)
      else (next % TWO_16 + ITEM_HEADER_SIZE) % TWO_16 > |list|
  }

  /** What the outer loop hands on from offset `i`. */
  function ItemsFrom(list: Bytes, i: nat): seq<Item>
    decreases if i <= |list| then |list| - i else 0
  {
    if i + ITEM_HEADER_SIZE > |list| then []
    else Dispatch(list[i], list[i + ITEM_HEADER_SIZE..]) + ItemsFrom(list, ItemEnd(list, i))
  }

  /** The items the code knows. */
  function Known(items: seq<Item>): seq<Item> {
    if items == [] then [] else (if items[0].Other? then [] else [items[0]]) + Known(items[1..])
  }

  // ---------- Read back what was written ----------

  lemma {:induction false} PlayerHeaderRead(item: Item, tail: Bytes)
    requires WellFormed(item) && item.Player?
    ensures |PlayerHeader(item)| == MEDIA_PLAYER_HEADER_SIZE
    ensures var b := PlayerHeader(item) + tail;
            && Read16(b, 0) == item.id && b[2] == item.major && Read32(b, 3) == item.sub && b[7] == item.status
            && b[8..24] == item.features && Read16(b, 24) == item.charset && Read16(b, 26) == |item.name|
  {
    var id, sub, charset, length := Write16(item.id), Write32(item.sub), Write16(item.charset), Write16(|item.name|);
    hide Read16, Read32, Write16, Write32, AllValid;
    var b := PlayerHeader(item) + tail;
    Read16Written([], item.id, [item.major] + sub + [item.status] + item.features + charset + length + tail);
    assert b == [] + id + ([item.major] + sub + [item.status] + item.features + charset + length + tail);
    Read32Written(id + [item.major], item.sub, [item.status] + item.features + charset + length + tail);
    assert b == id + [item.major] + sub + ([item.status] + item.features + charset + length + tail);
    var head := id + [item.major] + sub + [item.status] + item.features;
    Read16Written(head, item.charset, length + tail);
    assert b == head + charset + (length + tail);
    Read16Written(head + charset, |item.name|, tail);
    assert b == head + charset + length + tail;
  }

  lemma {:induction false} PlayerReadBack(item: Item, rest: Bytes)
    requires ValidItem(item) && item.Player?
    ensures ParsePlayer(Body(item) + rest) == [item]
  {
    var b := Body(item) + rest;
    hide Read16, Read32, Write16, Write32;
    PlayerHeaderRead(item, item.name + rest);
    assert b == PlayerHeader(item) + (item.name + rest);
    hide PlayerHeader, Body;
    assert b[MEDIA_PLAYER_HEADER_SIZE..MEDIA_PLAYER_HEADER_SIZE + |item.name|] == item.name;
  }

  lemma {:induction false} FolderHeaderRead(item: Item, tail: Bytes)
    requires WellFormed(item) && item.Folder?
    ensures |FolderHeader(item)| == FOLDER_HEADER_SIZE
    ensures var b := FolderHeader(item) + tail;
            && Read32(b, 0) == item.msb && Read32(b, 4) == item.lsb && b[8] == item.folderType && b[9] == item.playable
            && Read16(b, 10) == item.charset && Read16(b, 12) == |item.name|
  {
    var msb, lsb, charset, length := Write32(item.msb), Write32(item.lsb), Write16(item.charset), Write16(|item.name|);
    hide Read16, Read32, Write16, Write32, AllValid;
    var b := FolderHeader(item) + tail;
    var kind := [item.folderType, item.playable];
    Read32Written([], item.msb, lsb + kind + charset + length + tail);
    assert b == [] + msb + (lsb + kind + charset + length + tail);
    Read32Written(msb, item.lsb, kind + charset + length + tail);
    assert b == msb + lsb + (kind + charset + length + tail);
    Read16Written(msb + lsb + kind, item.charset, length + tail);
    assert b == msb + lsb + kind + charset + (length + tail);
    Read16Written(msb + lsb + kind + charset, |item.name|, tail);
  }

  lemma {:induction false} FolderReadBack(item: Item, rest: Bytes)
    requires ValidItem(item) && item.Folder?
    ensures ParseFolder(Body(item) + rest) == [item]
  {
    var b := Body(item) + rest;
    hide Read16, Read32, Write16, Write32;
    FolderHeaderRead(item, item.name + rest);
    assert b == FolderHeader(item) + (item.name + rest);
    hide FolderHeader, Body;
    assert b[FOLDER_HEADER_SIZE..FOLDER_HEADER_SIZE + |item.name|] == item.name;
  }

  lemma {:induction false} ElementHeaderRead(item: Item, tail: Bytes)
    requires WellFormed(item) && item.Element?
    ensures |ElementHeader(item)| == 13
    ensures var b := ElementHeader(item) + tail;
            && Read32(b, 0) == item.msb && Read32(b, 4) == item.lsb && b[8] == item.mediaType
            && Read16(b, 9) == item.charset && Read16(b, 11) == |item.name|
  {
    var msb, lsb, charset, length := Write32(item.msb), Write32(item.lsb), Write16(item.charset), Write16(|item.name|);
    hide Read16, Read32, Write16, Write32, AllValid;
    var b := ElementHeader(item) + tail;
    var kind := [item.mediaType];
    Read32Written([], item.msb, lsb + kind + charset + length + tail);
    assert b == [] + msb + (lsb + kind + charset + length + tail);
    Read32Written(msb, item.lsb, kind + charset + length + tail);
    assert b == msb + lsb + (kind + charset + length + tail);
    Read16Written(msb + lsb + kind, item.charset, length + tail);
    assert b == msb + lsb + kind + charset + (length + tail);
    Read16Written(msb + lsb + kind + charset, |item.name|, tail);
  }

  lemma {:induction false} ElementReadBack(item: Item, rest: Bytes)
    requires ValidItem(item) && item.Element?
    ensures ParseElement(Body(item) + rest) == [item]
  {
    var list := AttributeList.EncodeAll(item.attributes) + rest;
    var tail := item.name + [|item.attributes|] + list;
    hide Read16, Read32, Write16, Write32, AttributesOf, AttributeList.EncodeAll, AllValid, UpTo, ParseElement;
    ElementHeaderRead(item, tail);
    assert Body(item) + rest == ElementHeader(item) + tail;
    ListReadBack(item.attributes, rest);
    UpToPrefix(item.attributes, AttributesOf(rest));
    ParseAfterHeader(ElementHeader(item), item, list);
  }

  /** What a header that was read back and the bytes after it are parsed as. */
  lemma {:induction false} ParseAfterHeader(header: Bytes, item: Item, list: Bytes)
    requires WellFormed(item) && item.Element? && |header| == 13
    requires UpTo(AttributesOf(list), |item.attributes|) == item.attributes
    requires var b := header + (item.name + [|item.attributes|] + list);
             && Read32(b, 0) == item.msb && Read32(b, 4) == item.lsb && b[8] == item.mediaType
             && Read16(b, 9) == item.charset && Read16(b, 11) == |item.name|
    ensures ParseElement(header + (item.name + [|item.attributes|] + list)) == [item]
  {
    hide Read16, Read32, AttributesOf, AllValid, UpTo;
    var b := header + (item.name + [|item.attributes|] + list);
    var end := 13 + |item.name|;
    assert b[13..end] == item.name;
    assert b[end] == |item.attributes|;
    assert b[end + 1..] == list;
  }

  lemma {:induction false} UpToPrefix<T>(a: seq<T>, b: seq<T>)
    ensures UpTo(a + b, |a|) == a
  {
  }

  lemma {:induction false} ItemReadBack(item: Item, rest: Bytes)
    requires ValidItem(item)
    ensures Dispatch(ItemType(item), Body(item) + rest) == Known([item])
  {
    hide ParsePlayer, ParseFolder, ParseElement, Body;
    match item
    case Player(_, _, _, _, _, _, _) => PlayerReadBack(item, rest);
    case Folder(_, _, _, _, _, _) => FolderReadBack(item, rest);
    case Element(_, _, _, _, _, _) => ElementReadBack(item, rest);
    case Other(_, _) =>
  }

  lemma {:induction false} ItemSplit(item: Item, rest: Bytes)
    requires ValidItem(item)
    ensures var b := EncodeItem(item) + rest;
            var next := ITEM_HEADER_SIZE + |Body(item)|;
            && next <= |b| && b[0] == ItemType(item) && Read16(b, 1) == |Body(item)|
            && b[ITEM_HEADER_SIZE..] == Body(item) + rest
            && b[next..] == rest
  {
    var kind, length := [ItemType(item)], Write16(|Body(item)|);
    hide Body, WellFormed, Read16, Write16, ItemType;
    Read16Written(kind, |Body(item)|, Body(item) + rest);
    assert EncodeItem(item) + rest == kind + length + (Body(item) + rest);
  }

  lemma {:induction false} FirstItemReadBack(item: Item, rest: Bytes)
    requires ValidItem(item)
    ensures ItemsOf(EncodeItem(item) + rest) == Known([item]) + ItemsOf(rest)
  {
    ItemSplit(item, rest);
    ItemReadBack(item, rest);
    hide ValidItem, Dispatch, EncodeItem, Read16, Known, Body;
  }

  lemma {:induction false} KnownFirst(items: seq<Item>)
    requires items != []
    ensures Known(items) == Known([items[0]]) + Known(items[1..])
  {
  }

  lemma {:induction false} KnownNone()
    ensures Known([]) == []
  {
  }

  /** Every well-formed list is handed on item by item, each once and in order, with all its
      parts and attributes, whatever follows it; items of unknown type are skipped. */
  lemma {:induction false} ItemsReadBack(items: seq<Item>, rest: Bytes)
    requires AllValidItems(items)
    ensures ItemsOf(EncodeItems(items) + rest) == Known(items) + ItemsOf(rest)
  {
    hide ValidItem, EncodeItem, ItemsOf, Known;
    if items == [] {
      assert EncodeItems(items) + rest == rest;
      KnownNone();
    } else {
      var tail := EncodeItems(items[1..]) + rest;
      assert EncodeItems(items) + rest == EncodeItem(items[0]) + tail;
      FirstItemReadBack(items[0], tail);
      ItemsReadBack(items[1..], rest);
      KnownFirst(items);
    }
  }

  lemma {:induction false} FirstItem(list: Bytes)
    requires ITEM_HEADER_SIZE <= |list|
    ensures var next := ITEM_HEADER_SIZE + Read16(list, 1);
            ItemsOf(list) == Dispatch(list[0], list[ITEM_HEADER_SIZE..]) + if next > |list| then [] else ItemsOf(list[next..])
  {
    hide Dispatch, Read16;
  }

  lemma {:induction false} HeaderAt(list: Bytes, i: nat)
    requires i + ITEM_HEADER_SIZE <= |list|
    ensures list[i..][0] == list[i] && ITEM_HEADER_SIZE + Read16(list[i..], 1) == ItemEnd(list, i) - i
  {
    ReadSlice(list, 1, i, |list|);
    assert list[i..] == list[i..|list|];
    hide Read16;
  }

  lemma {:induction false} ItemsOfRest(list: Bytes, i: nat)
    requires i + ITEM_HEADER_SIZE <= |list|
    ensures var next := ItemEnd(list, i);
            ItemsOf(list[i..]) == Dispatch(list[i], list[i + ITEM_HEADER_SIZE..])
                                  + if next > |list| then [] else ItemsOf(list[next..])
  {
    hide Dispatch, Read16, ItemsOf, ItemEnd;
    FirstItem(list[i..]);
    HeaderAt(list, i);
    TailOfTail(list, i, ITEM_HEADER_SIZE);
    if ItemEnd(list, i) <= |list| {
      TailOfTail(list, i, ItemEnd(list, i) - i);
    }
  }

  lemma {:induction false} ItemsFromRest(list: Bytes, i: nat)
    requires i <= |list|
    ensures ItemsFrom(list, i) == ItemsOf(list[i..])
    decreases |list| - i
  {
    if i + ITEM_HEADER_SIZE <= |list| {
      ItemsOfRest(list, i);
      ItemsStep(list, i);
      hide Dispatch, ItemsOf, ItemsFrom;
      if ItemEnd(list, i) <= |list| {
        ItemsFromRest(list, ItemEnd(list, i));
      } else {
        NoItem(list, ItemEnd(list, i));
      }
    }
  }

  lemma {:induction false} OffsetsFitFrom(before: Bytes, items: seq<Item>)
    requires AllValidItems(items) && |before| + |EncodeItems(items)| + ITEM_HEADER_SIZE < TWO_16
    ensures OffsetsFit(before + EncodeItems(items), |before|)
    decreases items
  {
    hide EncodeItem, Read16, Body;
    if items != [] {
      var tail := EncodeItems(items[1..]);
      var list := before + EncodeItems(items);
      assert list == before + EncodeItem(items[0]) + tail;
      ItemSplit(items[0], tail);
      assert list[|before|..] == EncodeItem(items[0]) + tail;
      ReadSlice(list, 1, |before|, |list|);
      assert list[|before|..] == list[|before|..|list|];
      OffsetsFitFrom(before + EncodeItem(items[0]), items[1..]);
    }
  }

  /** The 16-bit offsets of the outer loop are enough for every well-formed list with room for
      one more header, and what it hands on is the list's items. */
  lemma {:induction false} WellFormedList(items: seq<Item>)
    requires AllValidItems(items) && |EncodeItems(items)| + ITEM_HEADER_SIZE < TWO_16
    ensures OffsetsFit(EncodeItems(items), 0) && ItemsOf(EncodeItems(items)) == Known(items)
  {
    OffsetsFitFrom([], items);
    assert [] + EncodeItems(items) == EncodeItems(items);
    ItemsReadBack(items, []);
    assert EncodeItems(items) + [] == EncodeItems(items);
    assert Known(items) + ItemsOf([]) == Known(items);
  }

  // ---------- The loops ----------

  predicate WholeFeatures(items: seq<Item>) {
    forall i :: 0 <= i < |items| && items[i].Player? ==> |items[i].features| == 16
  }

  /** The feature octets kept for the selected player: octets 7 and 8 of the last one listed. */
  function StoredFeatures(items: seq<Item>, selected: uint16, before: uint16): uint16
    requires WholeFeatures(items)
  {
    if items == [] then before
    else
      var last := items[|items| - 1];
      if last.Player? && last.id == selected then
        var high: int := last.features[8];
        high * 0x100 + last.features[7]
      else StoredFeatures(items[..|items| - 1], selected, before)
  }

  /** Item `k` is the last entry of the selected player. */
  predicate LastSelected(items: seq<Item>, selected: uint16, k: int) {
    && 0 <= k < |items| && IsSelected(items[k], selected)
    && forall j :: k < j < |items| ==> !IsSelected(items[j], selected)
  }

  predicate IsSelected(item: Item, selected: uint16) {
    item.Player? && item.id == selected
  }

  /** The octet with bits 8 n to 8 n + 7 of a 16-bit number. */
  function Octet(v: uint16, n: nat): uint8
    requires n < 2
  {
    if n == 0 then v % 0x100 else v / 0x100
  }

  /** What is kept is octets 7 and 8 of the features of the selected player's last entry, low octet
      first; without an entry, what was kept before. */
  ghost predicate Keeps(items: seq<Item>, selected: uint16, before: uint16, kept: uint16) {
    && (forall k :: LastSelected(items, selected, k) && |items[k].features| == 16 ==>
          Octet(kept, 0) == items[k].features[7] && Octet(kept, 1) == items[k].features[8])
    && ((forall k :: 0 <= k < |items| ==> !IsSelected(items[k], selected)) ==> kept == before)
  }

  lemma {:induction false} KeepsNext(items: seq<Item>, item: Item, selected: uint16, before: uint16, kept: uint16, next: uint16)
    requires Keeps(items, selected, before, kept)
    requires if IsSelected(item, selected) then
               |item.features| == 16 && Octet(next, 0) == item.features[7] && Octet(next, 1) == item.features[8]
             else next == kept
    ensures Keeps(items + [item], selected, before, next)
  {
    hide Octet;
    var all := items + [item];
    assert all[|items|] == item && forall j :: 0 <= j < |items| ==> all[j] == items[j];
    forall k | LastSelected(all, selected, k) && !IsSelected(item, selected) ensures LastSelected(items, selected, k) {
      assert forall j :: k < j < |items| ==> !IsSelected(all[j], selected);
    }
  }

  lemma {:induction false} StoredKeeps(items: seq<Item>, selected: uint16, before: uint16)
    requires WholeFeatures(items)
    ensures Keeps(items, selected, before, StoredFeatures(items, selected, before))
  {
    if items != [] {
      var n := |items| - 1;
      StoredKeeps(items[..n], selected, before);
      assert items == items[..n] + [items[n]];
      StoredLast(items, selected, before);
      hide Keeps, StoredFeatures, Octet;
      KeepsNext(items[..n], items[n], selected, before, StoredFeatures(items[..n], selected, before),
                StoredFeatures(items, selected, before));
    }
  }

  lemma {:induction false} StoredLast(items: seq<Item>, selected: uint16, before: uint16)
    requires WholeFeatures(items) && items != []
    ensures var n, kept := |items| - 1, StoredFeatures(items, selected, before);
            if IsSelected(items[n], selected) then
              |items[n].features| == 16 && Octet(kept, 0) == items[n].features[7] && Octet(kept, 1) == items[n].features[8]
            else kept == StoredFeatures(items[..n], selected, before)
  {
  }

  lemma {:induction false} KnownAppend(a: seq<Item>, b: seq<Item>)
    ensures Known(a + b) == Known(a) + Known(b)
  {
    hide Known;
    if a == [] {
      KnownNone();
      assert a + b == b;
    } else {
      KnownAppend(a[1..], b);
      KnownFirst(a);
      KnownFirst(a + b);
      assert (a + b)[1..] == a[1..] + b;
      AppendAssociates(Known([a[0]]), Known(a[1..]), Known(b));
    }
  }

  lemma {:induction false} KnownOne(item: Item, selected: uint16, before: uint16)
    requires ValidItem(item)
    ensures |Known([item])| <= 1 && WholeFeatures(Known([item]))
    ensures var kept := StoredFeatures(Known([item]), selected, before);
            if IsSelected(item, selected) then
              |item.features| == 16 && Octet(kept, 0) == item.features[7] && Octet(kept, 1) == item.features[8]
            else kept == before
  {
    assert [item][1..] == [] && [item][..0] == [];
    KnownNone();
  }

  /** Of every written list: what is kept is of its last entry for the selected player. */
  lemma {:induction false} KeptOfList(items: seq<Item>, selected: uint16, before: uint16)
    requires AllValidItems(items)
    ensures WholeFeatures(Known(items))
    ensures Keeps(items, selected, before, StoredFeatures(Known(items), selected, before))
  {
    if items == [] {
      KnownNone();
    } else {
      var n := |items| - 1;
      KeptOfList(items[..n], selected, before);
      var kept := StoredFeatures(Known(items[..n]), selected, before);
      KnownOne(items[n], selected, kept);
      assert items == items[..n] + [items[n]];
      KnownAppend(items[..n], [items[n]]);
      StoredAppend(Known(items[..n]), Known([items[n]]), selected, before);
      hide Known, StoredFeatures, ValidItem, Keeps, WholeFeatures;
      KeepsNext(items[..n], items[n], selected, before, kept, StoredFeatures(Known(items), selected, before));
    }
  }

  /** avrcpBrowseMediaPlayerItem; `item` runs to the end of the list. */
  method MediaPlayerItem(item: Bytes, selected: uint16, before: uint16) returns (handed: seq<Item>, features: uint16)
    ensures handed == ParsePlayer(item) && WholeFeatures(handed)
    ensures features == StoredFeatures(handed, selected, before)
  {
    features := before;
    var maxLength := |item|;
    if maxLength < MEDIA_PLAYER_HEADER_SIZE {
      return [], features;
    }
    hide Read16, Read32;
    var playerId, nameLength: int := Read16(item, 0), Read16(item, 26);
    if nameLength > maxLength - MEDIA_PLAYER_HEADER_SIZE {
      nameLength := maxLength - MEDIA_PLAYER_HEADER_SIZE;
    }
    if playerId == selected {
      var high: int := item[16];
      features := high * 0x100 + item[15];
    }
    handed := [Player(playerId, item[2], Read32(item, 3), item[7], item[8..24], Read16(item, 24), item[28..28 + nameLength])];
    assert handed[..0] == [];
  }

  /** avrcpBrowseFolderItem */
  method FolderItem(item: Bytes) returns (handed: seq<Item>)
    ensures handed == ParseFolder(item)
  {
    var maxLength := |item|;
    if maxLength < FOLDER_HEADER_SIZE {
      return [];
    }
    hide Read16, Read32;
    var nameLength: int := Read16(item, 12);
    if nameLength > maxLength - FOLDER_HEADER_SIZE {
      nameLength := maxLength - FOLDER_HEADER_SIZE;
    }
    handed := [Folder(Read32(item, 0), Read32(item, 4), item[8], item[9], Read16(item, 10), item[14..14 + nameLength])];
  }

  /** The attribute loop of avrcpBrowseMediaElementItem: at most `number`, and `index` and
      `maxLength` always meet at the end of the list. */
  method ElementAttributes(item: Bytes, start: uint16, number: uint8) returns (attributes: seq<Attribute>)
    requires start <= |item| < TWO_16
    ensures attributes == UpTo(AttributesOf(item[start..]), number)
  {
    hide Read16, Read32, AttributesOf, First;
    var index: uint16, maxLength: uint16 := start, |item| - start;
    attributes := [];
    var i := 0;
    while i < number
      invariant i <= number && |attributes| == i
      invariant index + maxLength == |item|
      invariant AttributesOf(item[start..]) == attributes + AttributesOf(item[index..])
    {
      if maxLength < ATTRIBUTE_HEADER_SIZE {
        NoAttribute(item[index..]);
        break;
      }
      var length := Read16(item, index + 6);
      if length > maxLength - ATTRIBUTE_HEADER_SIZE {
        length := maxLength - ATTRIBUTE_HEADER_SIZE;
      }
      FirstAt(item, index, |item|);
      assert item[..|item|] == item;
      NextAttribute(item, index);
      var from := index + ATTRIBUTE_HEADER_SIZE;
      attributes := attributes + [Attribute(Read32(item, index), Read16(item, index + 4), item[from..from + length])];
      maxLength := maxLength - ATTRIBUTE_HEADER_SIZE - length;
      index := index + ATTRIBUTE_HEADER_SIZE + length;
      i := i + 1;
    }
    if i == number {
      UpToPrefix(attributes, AttributesOf(item[index..]));
    }
  }

  /** avrcpBrowseMediaElementItem */
  method MediaElementItem(item: Bytes) returns (handed: seq<Item>)
    requires |item| < TWO_16
    ensures handed == ParseElement(item)
  {
    var maxLength: uint16 := |item|;
    if maxLength < MEDIA_ELEMENT_HEADER_SIZE {
      return [];
    }
    hide Read16, Read32, AttributesOf, UpTo;
    var nameLength := Read16(item, 11);
    if nameLength > maxLength - MEDIA_ELEMENT_HEADER_SIZE {
      return [];
    }
    var number: uint8 := 0;
    if maxLength > 13 + nameLength {
      number := item[13 + nameLength];
    }
    var attributes := ElementAttributes(item, 13 + nameLength + 1, number);
    handed := [Element(Read32(item, 0), Read32(item, 4), item[8], Read16(item, 9), item[13..13 + nameLength], attributes)];
  }

  lemma {:induction false} StoredAppend(a: seq<Item>, b: seq<Item>, selected: uint16, before: uint16)
    requires WholeFeatures(a) && WholeFeatures(b) && |b| <= 1
    ensures WholeFeatures(a + b)
    ensures StoredFeatures(a + b, selected, before) == StoredFeatures(b, selected, StoredFeatures(a, selected, before))
  {
    if b == [] {
      assert a + b == a;
    } else {
      assert (a + b)[..|a|] == a && b[..0] == [];
    }
  }

  /** One item handed to the function for its type. */
  method HandItem(itemType: uint8, item: Bytes, selected: uint16, before: uint16) returns (one: seq<Item>, features: uint16)
    requires |item| < TWO_16
    ensures one == Dispatch(itemType, item) && |one| <= 1 && WholeFeatures(one)
    ensures features == StoredFeatures(one, selected, before)
  {
    OneWhole(itemType, item);
    StoredUnlessPlayer(Dispatch(itemType, item), selected, before);
    hide ParseElement, ParsePlayer, ParseFolder, StoredFeatures;
    one, features := [], before;
    if itemType == TYPE_MEDIA_ELEMENT {
      one := MediaElementItem(item);
    } else if itemType == TYPE_MEDIA_PLAYER {
      one, features := MediaPlayerItem(item, selected, before);
    } else if itemType == TYPE_FOLDER {
      one := FolderItem(item);
    }
  }

  /** One turn of the outer loop. */
  method OneItem(list: Bytes, i: uint16, headerEnd: uint16, selected: uint16, before: uint16, ghost handed: seq<Item>)
    returns (one: seq<Item>, features: uint16, next: uint16, nextHeaderEnd: uint16)
    requires headerEnd <= |list| < TWO_16 && Walked(list, i, headerEnd, handed)
    ensures Walked(list, next, nextHeaderEnd, handed + one)
    ensures nextHeaderEnd <= |list| ==> i < next <= |list|
    ensures |one| <= 1 && WholeFeatures(one) && features == StoredFeatures(one, selected, before)
  {
    WalkedAt(list, i, headerEnd, handed);
    hide Read16, Dispatch, StoredFeatures, WholeFeatures, Walked, OffsetsFit, ItemsFrom, ItemEnd, NextItem, HeaderEnd;
    WalkOn(list, i, handed);
    one, features := HandItem(list[i], list[headerEnd..], selected, before);
    next, nextHeaderEnd := NextOffsets(list, i, headerEnd);
  }

  method NextOffsets(list: Bytes, i: uint16, headerEnd: uint16) returns (next: uint16, nextHeaderEnd: uint16)
    requires headerEnd == i + ITEM_HEADER_SIZE <= |list|
    ensures next == NextItem(list, i) && nextHeaderEnd == HeaderEnd(next)
  {
    hide Read16;
    next := (headerEnd + Read16(list, i + 1)) % TWO_16;
    nextHeaderEnd := (next + ITEM_HEADER_SIZE) % TWO_16;
  }

  /** The outer loop of sinkAvrcpBrowsingGetFolderItemsCfm, on `source` of which `announced`
      bytes are said to be the list. */
  method GetFolderItemsCfm(source: Bytes, announced: uint16, selected: uint16, before: uint16)
    returns (handed: seq<Item>, features: uint16)
    requires |source| < TWO_16
    requires OffsetsFit(source[..if |source| < announced then |source| else announced], 0)
    ensures handed == ItemsOf(source[..if |source| < announced then |source| else announced])
    ensures WholeFeatures(handed) && features == StoredFeatures(handed, selected, before)
    ensures Keeps(handed, selected, before, features)
  {
    var size: uint16 := if |source| < announced then |source| else announced;
    var list := source[..size];
    handed, features := [], before;
    var i: uint16 := 0;
    var headerEnd: uint16 := ITEM_HEADER_SIZE;
    WalkStarts(list);
    NoFeatures(selected, before);
    hide Read16, Dispatch, OffsetsFit, ItemsOf, StoredFeatures, WholeFeatures, Walked, Keeps;
    while size >= headerEnd
      invariant Walked(list, i, headerEnd, handed) && (headerEnd <= size ==> i <= size)
      invariant WholeFeatures(handed) && features == StoredFeatures(handed, selected, before)
      decreases if size >= headerEnd then size - i + 1 else 0
    {
      var one: seq<Item>;
      one, features, i, headerEnd := OneItem(list, i, headerEnd, selected, features, handed);
      StoredAppend(handed, one, selected, before);
      handed := handed + one;
    }
    WalkEnds(list, i, headerEnd, handed);
    StoredKeeps(handed, selected, before);
  }

  /** The loop has handed on the items before offset `i`, and those from `i` are left; once its
      test ends it, none is. */
  predicate Walked(list: Bytes, i: nat, headerEnd: nat, handed: seq<Item>) {
    if |list| < headerEnd then ItemsOf(list) == handed
    else
      && headerEnd == i + ITEM_HEADER_SIZE
      && OffsetsFit(list, i)
      && ItemsOf(list) == handed + ItemsFrom(list, i)
  }

  lemma {:induction false} WalkedAt(list: Bytes, i: nat, headerEnd: nat, handed: seq<Item>)
    requires Walked(list, i, headerEnd, handed) && headerEnd <= |list|
    ensures headerEnd == i + ITEM_HEADER_SIZE
  {
  }

  lemma {:induction false} WalkStarts(list: Bytes)
    requires OffsetsFit(list, 0)
    ensures Walked(list, 0, ITEM_HEADER_SIZE, [])
  {
    assert list[0..] == list;
    ItemsFromRest(list, 0);
    hide OffsetsFit, ItemsOf, ItemsFrom;
    if |list| < ITEM_HEADER_SIZE {
      NoItem(list, 0);
    }
  }

  lemma {:induction false} WalkOn(list: Bytes, i: nat, handed: seq<Item>)
    requires i + ITEM_HEADER_SIZE <= |list| < TWO_16 && Walked(list, i, i + ITEM_HEADER_SIZE, handed)
    ensures var next := NextItem(list, i);
            var headerEnd := HeaderEnd(next);
            && Walked(list, next, headerEnd, handed + Dispatch(list[i], list[i + ITEM_HEADER_SIZE..]))
            && (headerEnd <= |list| ==> i < next <= |list|)
  {
    FitStep(list, i);
    ItemsStep(list, i);
    var one, end := Dispatch(list[i], list[i + ITEM_HEADER_SIZE..]), ItemEnd(list, i);
    AppendAssociates(handed, one, ItemsFrom(list, end));
    if |list| < end + ITEM_HEADER_SIZE {
      NoItem(list, end);
      assert one + [] == one;
    }
    hide Dispatch, OffsetsFit, ItemsOf, ItemsFrom;
  }

  lemma {:induction false} NoItem(list: Bytes, i: nat)
    requires |list| < i + ITEM_HEADER_SIZE
    ensures ItemsFrom(list, i) == []
  {
  }

  lemma {:induction false} ItemsStep(list: Bytes, i: nat)
    requires i + ITEM_HEADER_SIZE <= |list|
    ensures ItemsFrom(list, i) == Dispatch(list[i], list[i + ITEM_HEADER_SIZE..]) + ItemsFrom(list, ItemEnd(list, i))
  {
  }

  lemma {:induction false} WalkEnds(list: Bytes, i: nat, headerEnd: nat, handed: seq<Item>)
    requires Walked(list, i, headerEnd, handed) && |list| < headerEnd
    ensures ItemsOf(list) == handed
  {
  }

  lemma {:induction false} NoFeatures(selected: uint16, before: uint16)
    ensures WholeFeatures([]) && StoredFeatures([], selected, before) == before
  {
  }

  lemma {:induction false} OneWhole(itemType: uint8, item: Bytes)
    ensures var one := Dispatch(itemType, item);
            WholeFeatures(one) && |one| <= 1 && (one != [] && one[0].Player? ==> itemType == TYPE_MEDIA_PLAYER)
  {
  }

  lemma {:induction false} StoredUnlessPlayer(one: seq<Item>, selected: uint16, before: uint16)
    requires |one| <= 1 && WholeFeatures(one)
    ensures (one != [] ==> !one[0].Player?) ==> StoredFeatures(one, selected, before) == before
  {
    assert one != [] ==> one[..|one| - 1] == [];
  }

  // ---------- The loop on arbitrary bytes ----------

  /** Where the item after the one at `i` is looked for, a 16-bit sum. */
  function NextItem(list: Bytes, i: uint16): uint16
    requires i + ITEM_HEADER_SIZE <= |list|
  {
    ItemEnd(list, i) % TWO_16
  }

  /** Where the header of an item ends, a 16-bit sum. */
  function HeaderEnd(i: uint16): uint16 {
    (i + ITEM_HEADER_SIZE) % TWO_16
  }

  /** The outcome of the loop at offset `i`, cut off after `turns` turns. */
  function LoopRun(list: Bytes, i: uint16, turns: nat): Loop
    requires |list| < TWO_16
    decreases turns
  {
    if |list| < HeaderEnd(i) then Stopped
    else if |list| < i + ITEM_HEADER_SIZE then Outside
    else if turns == 0 then Unfinished
    else LoopRun(list, NextItem(list, i), turns - 1)
  }

  /** In its next turns the loop only takes headers inside the list, each at or after `end`, the
      end of the item before it in unbounded arithmetic. */
  predicate InOrder(list: Bytes, i: uint16, end: nat, turns: nat)
    requires |list| < TWO_16
    decreases turns
  {
    || |list| < HeaderEnd(i)
    || (&& end <= i && i + ITEM_HEADER_SIZE <= |list|
        && (turns == 0 || InOrder(list, NextItem(list, i), ItemEnd(list, i), turns - 1)))
  }

  /** Where the loop goes from the item at `i`: on to its end, or to its own end, or astray. */
  lemma {:induction false} FitStep(list: Bytes, i: nat)
    requires i + ITEM_HEADER_SIZE <= |list| < TWO_16
    ensures var end, headerEnd := ItemEnd(list, i), HeaderEnd(NextItem(list, i));
            && end > i
            && (end + ITEM_HEADER_SIZE < TWO_16 ==>
                  && NextItem(list, i) == end && headerEnd == end + ITEM_HEADER_SIZE
                  && (OffsetsFit(list, i) <==> OffsetsFit(list, end)))
            && (end + ITEM_HEADER_SIZE >= TWO_16 ==>
                  && (OffsetsFit(list, i) <==> headerEnd > |list|)
                  && (headerEnd > |list| ==> end > |list|)
                  && (NextItem(list, i) < end || |list| < NextItem(list, i) + ITEM_HEADER_SIZE))
  {
    hide Read16;
  }

  lemma {:induction false} FitInOrder(list: Bytes, i: nat, turns: nat)
    requires |list| < TWO_16 && i + ITEM_HEADER_SIZE < TWO_16 && OffsetsFit(list, i)
    ensures InOrder(list, i, i, turns)
    ensures i + turns >= |list| ==> LoopRun(list, i, turns) == Stopped
    decreases turns
  {
    if i + ITEM_HEADER_SIZE <= |list| && turns > 0 {
      FitStep(list, i);
      hide ItemEnd, NextItem, OffsetsFit;
      var end := ItemEnd(list, i);
      if end + ITEM_HEADER_SIZE < TWO_16 {
        FitInOrder(list, end, turns - 1);
      }
    }
  }

  lemma {:induction false} UnfitAstray(list: Bytes, i: nat) returns (turns: nat)
    requires |list| < TWO_16 && i + ITEM_HEADER_SIZE < TWO_16 && !OffsetsFit(list, i)
    ensures !InOrder(list, i, i, turns)
    decreases if i <= |list| then |list| - i else 0
  {
    assert i + ITEM_HEADER_SIZE <= |list|;
    FitStep(list, i);
    hide ItemEnd, NextItem, OffsetsFit;
    var end := ItemEnd(list, i);
    if end + ITEM_HEADER_SIZE < TWO_16 {
      turns := UnfitAstray(list, end);
      turns := turns + 1;
    } else {
      turns := 1;
    }
  }

  /** For any bytes: the loop takes every header inside the list, in order and none twice, if and
      only if each offset walked in unbounded arithmetic fits in 16 bits with one more header, or
      the wrapped test ends the loop there. It then stops, within as many turns as bytes. */
  lemma {:induction false} LoopSoundIff(list: Bytes)
    requires |list| < TWO_16
    ensures (forall turns: nat :: InOrder(list, 0, 0, turns)) <==> OffsetsFit(list, 0)
    ensures OffsetsFit(list, 0) ==> LoopRun(list, 0, |list|) == Stopped
  {
    if OffsetsFit(list, 0) {
      forall turns: nat ensures InOrder(list, 0, 0, turns) {
        FitInOrder(list, 0, turns);
      }
      FitInOrder(list, 0, |list|);
    } else {
      var turns := UnfitAstray(list, 0);
    }
  }

  /** An announced length of 0xFFFD at the start of a list: the loop goes on for ever. */
  lemma {:induction false} LoopsForEver(list: Bytes, turns: nat)
    requires ITEM_HEADER_SIZE <= |list| < TWO_16 && Read16(list, 1) == 0xFFFD
    ensures LoopRun(list, 0, turns) == Unfinished && !OffsetsFit(list, 0)
    decreases turns
  {
    hide Read16;
    if turns > 0 {
      LoopsForEver(list, turns - 1);
    }
  }

  /** A wrapped offset can still end the loop properly. */
  lemma {:induction false} WrapCanStop()
    ensures OffsetsFit([0x00, 0xFF, 0xFF], 0) && LoopRun([0x00, 0xFF, 0xFF], 0, 1) == Stopped
  {
  }
}
