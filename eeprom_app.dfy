// The EEPROM item store: a typed RAM image of the stored settings, laid out by
// a fixed memory map, with per-item "needs saving" flags, a global dirty flag
// and a wrapping update counter, written back to the EEPROM on a flush.

module EepromApp {
  import opened Bytes
  import opened EepromBsp

  /** Marker stored in byte 0 once the EEPROM has been programmed. */
  const InitializedVal: byte := 0xA5
  /** EEPROM_DATA_STRUCTURE_VERSION. */
  const DataStructureVersion: byte := 6
  /** EEPROM_STORED_ITEM_EOL: the number of stored items. */
  const NumItems: nat := 30
  /** sizeof(EepromDataItems_t): the bytes the items occupy. */
  const ImageSize: nat := 46
  /** MM_NUM_BYTES as the firmware defines it (the start of the last item). */
  const MmNumBytes: nat := 45
  /** The long-press default written by SetDefaultValues. */
  const DefaultLongPressMs: u16 := 1000
  /** FUNC_FEATURE_SOUND_ENABLED_BIT_MASK, the default feature set. */
  const DefaultEnabledFeatures: byte := 0x10
  /** The default current feature: the first enumerator of the feature list. */
  const DefaultActiveFeature: byte := 0

  type ItemId = i: nat | i < NumItems

  // EepromItemId_t
  const ItemInitialized: ItemId := 0
  const ItemLeftPadInputType: ItemId := 1
  const ItemRightPadInputType: ItemId := 2
  const ItemCtrPadInputType: ItemId := 3
  const ItemLeftPadOutputMap: ItemId := 4
  const ItemRightPadOutputMap: ItemId := 5
  const ItemCtrPadOutputMap: ItemId := 6
  const ItemLongPressActTime: ItemId := 7
  const ItemEnabledFeatures: ItemId := 8
  const ItemCurrentActiveFeature: ItemId := 9
  const ItemLeftPadMinAdc: ItemId := 10
  const ItemLeftPadMaxAdc: ItemId := 11
  const ItemLeftPadMinThresh: ItemId := 12
  const ItemLeftPadMaxThresh: ItemId := 13
  const ItemRightPadMinAdc: ItemId := 14
  const ItemRightPadMaxAdc: ItemId := 15
  const ItemRightPadMinThresh: ItemId := 16
  const ItemRightPadMaxThresh: ItemId := 17
  const ItemCtrPadMinAdc: ItemId := 18
  const ItemCtrPadMaxAdc: ItemId := 19
  const ItemCtrPadMinThresh: ItemId := 20
  const ItemCtrPadMaxThresh: ItemId := 21
  const ItemNeutralDacCounts: ItemId := 22
  const ItemNeutralDacSetting: ItemId := 23
  const ItemNeutralDacRange: ItemId := 24
  const ItemVersion: ItemId := 25
  const ItemCenterPadMinDriveSpeed: ItemId := 26
  const ItemLeftPadMinDriveSpeed: ItemId := 27
  const ItemRightPadMinDriveSpeed: ItemId := 28
  const ItemEnabledFeatures2: ItemId := 29

  datatype ItemType = Bool | Enum | Uint8 | Uint16

  /** The type column of items_info. */
  function TypeOf(i: ItemId): ItemType
  {
    if i == ItemInitialized then Uint8
    else if i <= ItemCtrPadOutputMap then Enum
    else if i == ItemLongPressActTime then Uint16
    else if i == ItemEnabledFeatures then Uint8
    else if i == ItemCurrentActiveFeature then Enum
    else if i <= ItemNeutralDacRange then Uint16
    else Uint8
  }

  /** ITEM_TYPE_*_SIZE_BYTES. */
  function ItemSize(i: ItemId): nat
  {
    if TypeOf(i) == Uint16 then 2 else 1
  }

  /** A one-byte item (bool, enum or uint8). */
  predicate IsByteItem(i: ItemId)
  {
    TypeOf(i) != Uint16
  }

  /**
   * The MM_* memory map, in closed form: the eight one-byte items from 0,
   * the two after the long-press word, the fifteen 16-bit items, then the
   * last five one-byte items. It is both the offset in the RAM image and the
   * address in the EEPROM; AddrChain states the chain the MM_* macros spell
   * out, each item at the end of the one before it.
   */
  function Addr(i: ItemId): nat
  {
    if i <= ItemLongPressActTime then i
    else if i <= ItemCurrentActiveFeature then i + 1
    else if i <= ItemNeutralDacRange then 2 * i - 9
    else i + 16
  }

  /** Item 0 is at address 0 and every other item starts where the one before it ends. */
  lemma AddrChain(i: ItemId)
    ensures Addr(0) == 0
    ensures i > 0 ==> Addr(i) == Addr(i - 1) + ItemSize(i - 1)
  {
  }

  /** The end of the first `k` items. */
  function EndOf(k: nat): nat
    requires k <= NumItems
  {
    if k == 0 then 0 else Addr(k - 1) + ItemSize(k - 1)
  }

  /** An earlier item ends at or before the start of a later one. */
  lemma {:induction false} AddrMonotone(i: ItemId, j: ItemId)
    requires i < j
    ensures Addr(i) + ItemSize(i) <= Addr(j)
    decreases j
  {
    AddrChain(j);
    if i + 1 < j {
      AddrMonotone(i, j - 1);
    }
  }

  /** The MM_* addresses, item by item, each one the previous address plus the previous item's size. */
  lemma AddrValues()
    ensures Addr(0) == 0 && Addr(1) == 1 && Addr(2) == 2 && Addr(3) == 3 && Addr(4) == 4 && Addr(5) == 5 && Addr(6) == 6 && Addr(7) == 7 && Addr(8) == 9 && Addr(9) == 10
    ensures Addr(10) == 11 && Addr(11) == 13 && Addr(12) == 15 && Addr(13) == 17 && Addr(14) == 19 && Addr(15) == 21 && Addr(16) == 23 && Addr(17) == 25 && Addr(18) == 27 && Addr(19) == 29
    ensures Addr(20) == 31 && Addr(21) == 33 && Addr(22) == 35 && Addr(23) == 37 && Addr(24) == 39 && Addr(25) == 41 && Addr(26) == 42 && Addr(27) == 43 && Addr(28) == 44 && Addr(29) == 45
  {
  }

  /** The last item ends at byte 46, the size of the item struct. */
  lemma LastItemEnd()
    ensures Addr(NumItems - 1) == MmNumBytes
    ensures EndOf(NumItems) == ImageSize
  {
    AddrValues();
  }

  /** Every item lies inside the image. */
  lemma ItemInImage(i: ItemId)
    ensures Addr(i) + ItemSize(i) <= ImageSize
  {
    LastItemEnd();
    if i < NumItems - 1 {
      AddrMonotone(i, NumItems - 1);
    }
  }

  /**
   * The memory map: item 0 at address 0, each item at the end of the one
   * before it, the last one at MM_NUM_BYTES = 45 ending at 46, so the bytes
   * view of MM_NUM_BYTES bytes is one short of the items it overlays.
   */
  lemma MemoryMapLayout()
    ensures Addr(ItemInitialized) == 0
    ensures forall i: ItemId :: i < NumItems - 1 ==> Addr(i) + ItemSize(i) == Addr(i + 1)
    ensures forall i: ItemId :: ItemSize(i) == 1 || ItemSize(i) == 2
    ensures Addr(ItemLongPressActTime) == 7 && Addr(ItemEnabledFeatures) == 9
    ensures Addr(ItemNeutralDacRange) == 39 && Addr(ItemVersion) == 41
    ensures Addr(ItemEnabledFeatures2) == MmNumBytes
    ensures EndOf(NumItems) == ImageSize && MmNumBytes + 1 == ImageSize
  {
    LastItemEnd();
    assert Addr(7) == 7;
    assert Addr(24) == 39;
  }

  /** The item that holds image address `a`, searching down from item `i`. */
  function ItemOf(a: nat, i: ItemId := NumItems - 1): ItemId
    decreases i
  {
    if Addr(i) <= a || i == 0 then i else ItemOf(a, i - 1)
  }

  lemma {:induction false} ItemOfBounds(a: nat, i: ItemId)
    requires a < Addr(i) + ItemSize(i)
    ensures Addr(ItemOf(a, i)) <= a < Addr(ItemOf(a, i)) + ItemSize(ItemOf(a, i))
    decreases i
  {
    if Addr(i) > a && i > 0 {
      ItemOfBounds(a, i - 1);
    }
  }

  /** Every image address belongs to exactly one item, found by ItemOf. */
  lemma ItemOfOwns(a: nat, i: ItemId)
    requires a < ImageSize
    ensures Addr(ItemOf(a)) <= a < Addr(ItemOf(a)) + ItemSize(ItemOf(a))
    ensures (Addr(i) <= a < Addr(i) + ItemSize(i)) <==> i == ItemOf(a)
  {
    LastItemEnd();
    ItemOfBounds(a, NumItems - 1);
    var r := ItemOf(a);
    if i < r {
      AddrMonotone(i, r);
    } else if r < i {
      AddrMonotone(r, i);
    }
  }

  /** The bytes of item `i` in an image or in the EEPROM. */
  function ItemBytes(m: seq<byte>, i: ItemId): (r: seq<byte>)
    requires |m| >= ImageSize
    ensures |r| == ItemSize(i)
  {
    ItemInImage(i);
    m[Addr(i)..Addr(i) + ItemSize(i)]
  }

  /** eepromBoolGet / eepromEnumGet / eeprom8bitGet on an image. */
  function ByteValue(img: seq<byte>, i: ItemId): byte
    requires |img| == ImageSize && IsByteItem(i)
  {
    ItemInImage(i);
    img[Addr(i)]
  }

  /** eeprom16bitGet on an image: the uint16_t stored little-endian at the item. */
  function WordValue(img: seq<byte>, i: ItemId): u16
    requires |img| == ImageSize && TypeOf(i) == Uint16
  {
    ItemInImage(i);
    Join(img[Addr(i) + 1], img[Addr(i)])
  }

  /** The image with a uint16_t stored little-endian at address `a`. */
  function PutWord(img: seq<byte>, a: nat, v: u16): (r: seq<byte>)
    requires a + 1 < |img|
    ensures |r| == |img|
  {
    img[a := Lo(v)][a + 1 := Hi(v)]
  }

  /** The module's RAM state: the image, the flags and the counter. */
  datatype StoreState = StoreState(
    image: seq<byte>,        // eeprom_data
    needToSave: seq<bool>,   // items_info[].need_to_save
    anyDirty: bool,          // at_least_one_item_requires_saving
    count: byte)             // num_times_any_item_has_updated
  {
    predicate WellFormed()
    {
      |image| == ImageSize && |needToSave| == NumItems
    }
  }

  /** No item is flagged unless the global dirty flag is set. */
  ghost predicate Coherent(st: StoreState)
  {
    st.WellFormed() && forall i: ItemId :: st.needToSave[i] ==> st.anyDirty
  }

  /** Every item not flagged for saving holds the same bytes in RAM and in the EEPROM. */
  ghost predicate InSync(st: StoreState, mem: seq<byte>)
  {
    st.WellFormed() && |mem| == SizeOfEeprom &&
    forall i: ItemId :: !st.needToSave[i] ==> ItemBytes(mem, i) == ItemBytes(st.image, i)
  }

  /** A setter's effect: only a changed value flags the item, sets the dirty flag and counts. */
  function Changed(st: StoreState, i: ItemId, img: seq<byte>): StoreState
    requires st.WellFormed()
  {
    StoreState(img, st.needToSave[i := true], true, Wrap8(st.count + 1))
  }

  /** eepromBoolSet / eepromEnumSet / eeprom8bitSet. */
  function SetByte(st: StoreState, i: ItemId, v: byte): (r: StoreState)
    requires st.WellFormed() && IsByteItem(i)
    ensures r.WellFormed()
  {
    ItemInImage(i);
    if st.image[Addr(i)] == v then st else Changed(st, i, st.image[Addr(i) := v])
  }

  /** eeprom16bitSet. */
  function SetWord(st: StoreState, i: ItemId, v: u16): (r: StoreState)
    requires st.WellFormed() && TypeOf(i) == Uint16
    ensures r.WellFormed()
  {
    ItemInImage(i);
    if WordValue(st.image, i) == v then st else Changed(st, i, PutWord(st.image, Addr(i), v))
  }

  /** Setting an 8-bit item stores exactly that item's byte; every other item keeps its bytes and flag. */
  lemma SetByteSemantics(st: StoreState, i: ItemId, v: byte, j: ItemId)
    requires st.WellFormed() && IsByteItem(i)
    ensures ByteValue(SetByte(st, i, v).image, i) == v
    ensures j != i ==> ItemBytes(SetByte(st, i, v).image, j) == ItemBytes(st.image, j)
    ensures j != i ==> SetByte(st, i, v).needToSave[j] == st.needToSave[j]
  {
    ItemInImage(i);
    ItemInImage(j);
    if j < i {
      AddrMonotone(j, i);
    } else if i < j {
      AddrMonotone(i, j);
    }
  }

  /** Setting a 16-bit item stores exactly that value; every other item keeps its bytes and flag. */
  lemma SetWordSemantics(st: StoreState, i: ItemId, v: u16, j: ItemId)
    requires st.WellFormed() && TypeOf(i) == Uint16
    ensures WordValue(SetWord(st, i, v).image, i) == v
    ensures j != i ==> ItemBytes(SetWord(st, i, v).image, j) == ItemBytes(st.image, j)
    ensures j != i ==> SetWord(st, i, v).needToSave[j] == st.needToSave[j]
  {
    ItemInImage(i);
    ItemInImage(j);
    JoinSplit(v);
    if j < i {
      AddrMonotone(j, i);
    } else if i < j {
      AddrMonotone(i, j);
    }
  }

  /**
   * A setter changes the module state iff the new value differs; a change
   * flags the item, sets the dirty flag and counts one update modulo 256.
   */
  lemma SetByteChangeOnly(st: StoreState, i: ItemId, v: byte)
    requires st.WellFormed() && IsByteItem(i)
    ensures (SetByte(st, i, v) == st) <==> ByteValue(st.image, i) == v
    ensures ByteValue(st.image, i) != v ==>
      SetByte(st, i, v).needToSave[i] && SetByte(st, i, v).anyDirty &&
      SetByte(st, i, v).count == (st.count + 1) % 256
  {
    ItemInImage(i);
    if ByteValue(st.image, i) != v {
      assert SetByte(st, i, v).image[Addr(i)] == v;
    }
  }

  /** The same for 16-bit items. */
  lemma SetWordChangeOnly(st: StoreState, i: ItemId, v: u16)
    requires st.WellFormed() && TypeOf(i) == Uint16
    ensures (SetWord(st, i, v) == st) <==> WordValue(st.image, i) == v
    ensures WordValue(st.image, i) != v ==>
      SetWord(st, i, v).needToSave[i] && SetWord(st, i, v).anyDirty &&
      SetWord(st, i, v).count == (st.count + 1) % 256
  {
    if WordValue(st.image, i) != v {
      SetWordSemantics(st, i, v, i);
    }
  }

  /** A setter keeps the flags coherent and the EEPROM in step with every unflagged item. */
  lemma SetByteKeepsInvariants(st: StoreState, mem: seq<byte>, i: ItemId, v: byte)
    requires Coherent(st) && InSync(st, mem) && IsByteItem(i)
    ensures Coherent(SetByte(st, i, v)) && InSync(SetByte(st, i, v), mem)
  {
    forall j: ItemId
      ensures !SetByte(st, i, v).needToSave[j] ==> ItemBytes(mem, j) == ItemBytes(SetByte(st, i, v).image, j)
    {
      SetByteSemantics(st, i, v, j);
    }
  }

  /** The same for 16-bit items. */
  lemma SetWordKeepsInvariants(st: StoreState, mem: seq<byte>, i: ItemId, v: u16)
    requires Coherent(st) && InSync(st, mem) && TypeOf(i) == Uint16
    ensures Coherent(SetWord(st, i, v)) && InSync(SetWord(st, i, v), mem)
  {
    forall j: ItemId
      ensures !SetWord(st, i, v).needToSave[j] ==> ItemBytes(mem, j) == ItemBytes(SetWord(st, i, v).image, j)
    {
      SetWordSemantics(st, i, v, j);
    }
  }

  /** The EEPROM after the first `k` items that `sel` selects are written from `img`. */
  function FlushMem(mem: seq<byte>, img: seq<byte>, sel: seq<bool>, k: nat): (r: seq<byte>)
    requires |mem| == SizeOfEeprom && |img| == ImageSize && |sel| == NumItems && k <= NumItems
    ensures |r| == SizeOfEeprom
  {
    if k == 0 then mem
    else
      var m := FlushMem(mem, img, sel, k - 1);
      var i: ItemId := k - 1;
      ItemInImage(i);
      if !sel[i] then m
      else if TypeOf(i) == Uint16 then Written(m, Addr(i), [img[Addr(i)], img[Addr(i) + 1]])
      else m[Addr(i) := img[Addr(i)]]
  }

  /** One step of a flush writes the image bytes of item `k - 1` if selected, and nothing else. */
  lemma FlushStepAt(mem: seq<byte>, img: seq<byte>, sel: seq<bool>, k: nat, a: nat)
    requires |mem| == SizeOfEeprom && |img| == ImageSize && |sel| == NumItems && 0 < k <= NumItems
    requires a < SizeOfEeprom
    ensures FlushMem(mem, img, sel, k)[a] ==
      if a < ImageSize && sel[k - 1] && Addr(k - 1) <= a < Addr(k - 1) + ItemSize(k - 1) then img[a]
      else FlushMem(mem, img, sel, k - 1)[a]
  {
    var i: ItemId := k - 1;
    ItemInImage(i);
    if sel[i] && TypeOf(i) == Uint16 {
      var m := FlushMem(mem, img, sel, k - 1);
      WrittenContiguous(m, Addr(i), [img[Addr(i)], img[Addr(i) + 1]]);
    }
  }

  /** Each EEPROM address holds the image byte iff its item was among those written. */
  lemma {:induction false} FlushMemAt(mem: seq<byte>, img: seq<byte>, sel: seq<bool>, k: nat, a: nat)
    requires |mem| == SizeOfEeprom && |img| == ImageSize && |sel| == NumItems && k <= NumItems
    requires a < SizeOfEeprom
    ensures FlushMem(mem, img, sel, k)[a] ==
      if a < ImageSize && ItemOf(a) < k && sel[ItemOf(a)] then img[a] else mem[a]
  {
    if k > 0 {
      FlushMemAt(mem, img, sel, k - 1, a);
      FlushStepAt(mem, img, sel, k, a);
      if a < ImageSize {
        ItemOfOwns(a, k - 1);
      } else {
        ItemInImage(k - 1);
      }
    }
  }

  /** Which items eepromFlush writes. */
  function Selection(st: StoreState, force: bool): (sel: seq<bool>)
    requires st.WellFormed()
    ensures |sel| == NumItems
  {
    seq(NumItems, i requires 0 <= i < NumItems => st.needToSave[i] || force)
  }

  /** eepromFlush: the new module state and the new EEPROM. */
  function FlushState(st: StoreState, mem: seq<byte>, force: bool): (r: (StoreState, seq<byte>))
    requires st.WellFormed() && |mem| == SizeOfEeprom
    ensures r.0.WellFormed() && |r.1| == SizeOfEeprom
  {
    if force || st.anyDirty then
      (StoreState(st.image, seq(NumItems, _ => false), false, st.count),
       FlushMem(mem, st.image, Selection(st, force), NumItems))
    else (st, mem)
  }

  /**
   * A flush writes every flagged item (all items when forced), only those,
   * and clears every flag; an unforced flush with nothing dirty does nothing.
   */
  lemma FlushWritesSelected(st: StoreState, mem: seq<byte>, force: bool, i: ItemId)
    requires st.WellFormed() && |mem| == SizeOfEeprom
    ensures !force && !st.anyDirty ==> FlushState(st, mem, force) == (st, mem)
    ensures force || st.anyDirty ==>
      var (st', mem') := FlushState(st, mem, force);
      st'.image == st.image && st'.count == st.count && !st'.anyDirty && !st'.needToSave[i] &&
      ItemBytes(mem', i) == (if st.needToSave[i] || force then ItemBytes(st.image, i) else ItemBytes(mem, i)) &&
      mem'[ImageSize..] == mem[ImageSize..]
  {
    if force || st.anyDirty {
      var mem' := FlushState(st, mem, force).1;
      var sel := Selection(st, force);
      ItemInImage(i);
      forall a | Addr(i) <= a < Addr(i) + ItemSize(i)
        ensures mem'[a] == if sel[i] then st.image[a] else mem[a]
      {
        FlushMemAt(mem, st.image, sel, NumItems, a);
        ItemOfOwns(a, i);
      }
      forall a | ImageSize <= a < SizeOfEeprom
        ensures mem'[a] == mem[a]
      {
        FlushMemAt(mem, st.image, sel, NumItems, a);
      }
    }
  }

  /**
   * With coherent flags and every unflagged item already in step, any flush
   * leaves the EEPROM holding exactly the RAM image with no flag set.
   */
  lemma FlushSynchronises(st: StoreState, mem: seq<byte>, force: bool)
    requires Coherent(st) && InSync(st, mem)
    ensures var (st', mem') := FlushState(st, mem, force);
      mem'[..ImageSize] == st.image && st'.image == st.image &&
      (force || st.anyDirty ==> forall i: ItemId :: !st'.needToSave[i]) &&
      Coherent(st') && InSync(st', mem')
  {
    var (st', mem') := FlushState(st, mem, force);
    forall a | 0 <= a < ImageSize
      ensures mem'[a] == st.image[a]
    {
      FlushedByte(st, mem, force, a);
    }
    forall i: ItemId
      ensures ItemBytes(mem', i) == ItemBytes(st'.image, i)
    {
      ItemInImage(i);
    }
  }

  /** One image byte after such a flush: the EEPROM holds the RAM image's byte. */
  lemma FlushedByte(st: StoreState, mem: seq<byte>, force: bool, a: nat)
    requires Coherent(st) && InSync(st, mem) && a < ImageSize
    ensures FlushState(st, mem, force).1[a] == st.image[a]
  {
    var mem' := FlushState(st, mem, force).1;
    var i := ItemOf(a);
    ItemOfOwns(a, i);
    ItemInImage(i);
    FlushWritesSelected(st, mem, force, i);
    assert ItemBytes(mem', i)[a - Addr(i)] == mem'[a];
    assert ItemBytes(st.image, i)[a - Addr(i)] == st.image[a];
    assert ItemBytes(mem, i)[a - Addr(i)] == mem[a];
  }

  /** SyncWithEeprom: whether the marker was found, and the new module state. */
  function SyncState(st: StoreState, mem: seq<byte>): (r: (bool, StoreState))
    requires st.WellFormed() && |mem| == SizeOfEeprom
    ensures r.1.WellFormed()
  {
    if mem[Addr(ItemInitialized)] == InitializedVal then
      (true, StoreState(mem[..ImageSize], [st.needToSave[0]] + seq(NumItems - 1, _ => false), st.anyDirty, st.count))
    else (false, st)
  }

  /**
   * A sync happens iff byte 0 holds the marker; it then loads every item from
   * the EEPROM and clears the flags of items 1 onwards. Item 0 is loaded by
   * a direct assignment that leaves its flag and the dirty flag as they were.
   */
  lemma SyncLoads(st: StoreState, mem: seq<byte>)
    requires st.WellFormed() && |mem| == SizeOfEeprom
    ensures var (ok, st') := SyncState(st, mem);
      ok == (mem[0] == InitializedVal) &&
      (ok ==> (forall i: ItemId :: ItemBytes(st'.image, i) == ItemBytes(mem, i)) &&
              (forall i: ItemId :: i != ItemInitialized ==> !st'.needToSave[i]) &&
              st'.needToSave[ItemInitialized] == st.needToSave[ItemInitialized] &&
              st'.anyDirty == st.anyDirty && st'.count == st.count) &&
      (!ok ==> st' == st)
  {
    forall i: ItemId
      ensures ItemBytes(mem[..ImageSize], i) == ItemBytes(mem, i)
    {
      ItemInImage(i);
    }
  }

  /** SetDefaultValues: the items it assigns, written straight into the image. */
  function Defaults(img: seq<byte>): (r: seq<byte>)
    requires |img| == ImageSize
    ensures |r| == ImageSize
  {
    ItemInImage(ItemEnabledFeatures2);
    var withTime := PutWord(img[Addr(ItemInitialized) := InitializedVal], Addr(ItemLongPressActTime), DefaultLongPressMs);
    withTime[Addr(ItemEnabledFeatures) := DefaultEnabledFeatures]
            [Addr(ItemCurrentActiveFeature) := DefaultActiveFeature]
            [Addr(ItemVersion) := DataStructureVersion]
            [Addr(ItemEnabledFeatures2) := 0]
  }

  /** The items SetDefaultValues assigns. */
  predicate HasDefault(i: ItemId)
  {
    i in {ItemInitialized, ItemLongPressActTime, ItemEnabledFeatures, ItemCurrentActiveFeature,
          ItemVersion, ItemEnabledFeatures2}
  }

  /** The defaults: the marker, a 1000 ms long press, sound on, the first feature, version 6, no features2. */
  lemma DefaultsValues(img: seq<byte>)
    requires |img| == ImageSize
    ensures ByteValue(Defaults(img), ItemInitialized) == InitializedVal
    ensures WordValue(Defaults(img), ItemLongPressActTime) == DefaultLongPressMs
    ensures ByteValue(Defaults(img), ItemEnabledFeatures) == DefaultEnabledFeatures
    ensures ByteValue(Defaults(img), ItemCurrentActiveFeature) == DefaultActiveFeature
    ensures ByteValue(Defaults(img), ItemVersion) == DataStructureVersion
    ensures ByteValue(Defaults(img), ItemEnabledFeatures2) == 0
  {
    DefaultAddrs();
  }

  /** The addresses of the items SetDefaultValues assigns. */
  lemma DefaultAddrs()
    ensures Addr(ItemInitialized) == 0 && Addr(ItemLongPressActTime) == 7 && Addr(ItemEnabledFeatures) == 9
    ensures Addr(ItemCurrentActiveFeature) == 10 && Addr(ItemVersion) == 41 && Addr(ItemEnabledFeatures2) == 45
  {
    AddrValues();
  }

  /** SetDefaultValues leaves every item it does not assign as it was. */
  lemma DefaultsKeepOthers(img: seq<byte>, j: ItemId)
    requires |img| == ImageSize && !HasDefault(j)
    ensures ItemBytes(Defaults(img), j) == ItemBytes(img, j)
  {
    LastItemEnd();
    assert Addr(ItemLongPressActTime) == 7;
    assert Addr(ItemCurrentActiveFeature) == 10;
    assert Addr(ItemVersion) == 41;
    if j < ItemLongPressActTime {
      AddrMonotone(ItemInitialized, j);
      AddrMonotone(j, ItemLongPressActTime);
    } else if j < ItemVersion {
      AddrMonotone(ItemCurrentActiveFeature, j);
      AddrMonotone(j, ItemVersion);
    } else {
      AddrMonotone(ItemVersion, j);
      AddrMonotone(j, ItemEnabledFeatures2);
    }
    var lo := Addr(j);
    var hi := lo + ItemSize(j);
    assert 1 <= lo && hi <= ImageSize;
    assert forall a :: lo <= a < hi ==> Defaults(img)[a] == img[a];
  }

  /** The upgrade from version 3: the centre pad's minimum drive speed is added, at 20. */
  function UpgradeFrom3(st: StoreState): (r: StoreState)
    requires st.WellFormed()
    ensures r.WellFormed()
  {
    SetByte(st, ItemCenterPadMinDriveSpeed, 20)
  }

  /** The upgrade from version 4: the left and right pads take the centre pad's minimum drive speed. */
  function UpgradeFrom4(st: StoreState): (r: StoreState)
    requires st.WellFormed()
    ensures r.WellFormed()
  {
    var speed := ByteValue(st.image, ItemCenterPadMinDriveSpeed);
    SetByte(SetByte(st, ItemLeftPadMinDriveSpeed, speed), ItemRightPadMinDriveSpeed, speed)
  }

  /** The upgrade from version 5: the second feature byte is added, cleared. */
  function UpgradeFrom5(st: StoreState): (r: StoreState)
    requires st.WellFormed()
    ensures r.WellFormed()
  {
    SetByte(st, ItemEnabledFeatures2, 0)
  }

  /**
   * The version-upgrade chain of eepromAppInit: each step runs when the
   * stored version is that step's or an earlier one that the chain has
   * already brought up to it, and the current version is stored last.
   */
  function Migrate(st: StoreState): (r: StoreState)
    requires st.WellFormed()
    ensures r.WellFormed()
  {
    var v := ByteValue(st.image, ItemVersion);
    var s4 := if v == 3 then UpgradeFrom3(st) else st;
    var s5 := if v == 3 || v == 4 then UpgradeFrom4(s4) else s4;
    var s6 := if 3 <= v <= 5 then UpgradeFrom5(s5) else s5;
    SetByte(s6, ItemVersion, DataStructureVersion)
  }

  /** What the version-3 step stores, item by item. */
  lemma UpgradeFrom3Value(st: StoreState, j: ItemId)
    requires st.WellFormed() && IsByteItem(j)
    ensures ByteValue(UpgradeFrom3(st).image, j) ==
      if j == ItemCenterPadMinDriveSpeed then 20 else ByteValue(st.image, j)
  {
    SetByteValue(st, ItemCenterPadMinDriveSpeed, 20, j);
  }

  /** What the version-4 step stores, item by item. */
  lemma UpgradeFrom4Value(st: StoreState, j: ItemId)
    requires st.WellFormed() && IsByteItem(j)
    ensures ByteValue(UpgradeFrom4(st).image, j) ==
      if j == ItemLeftPadMinDriveSpeed || j == ItemRightPadMinDriveSpeed then ByteValue(st.image, ItemCenterPadMinDriveSpeed)
      else ByteValue(st.image, j)
  {
    var speed := ByteValue(st.image, ItemCenterPadMinDriveSpeed);
    SetByteValue(st, ItemLeftPadMinDriveSpeed, speed, j);
    SetByteValue(SetByte(st, ItemLeftPadMinDriveSpeed, speed), ItemRightPadMinDriveSpeed, speed, j);
  }

  /** What the version-5 step stores, item by item. */
  lemma UpgradeFrom5Value(st: StoreState, j: ItemId)
    requires st.WellFormed() && IsByteItem(j)
    ensures ByteValue(UpgradeFrom5(st).image, j) == if j == ItemEnabledFeatures2 then 0 else ByteValue(st.image, j)
  {
    SetByteValue(st, ItemEnabledFeatures2, 0, j);
  }

  /** The byte value of item `i` after one byte setter, for any item. */
  lemma SetByteValue(st: StoreState, i: ItemId, v: byte, j: ItemId)
    requires st.WellFormed() && IsByteItem(i) && IsByteItem(j)
    ensures ByteValue(SetByte(st, i, v).image, j) == if i == j then v else ByteValue(st.image, j)
  {
    SetByteSemantics(st, i, v, j);
    ItemInImage(j);
    if i != j {
      assert ItemBytes(SetByte(st, i, v).image, j)[0] == ByteValue(SetByte(st, i, v).image, j);
    }
  }

  /** The 16-bit value of item `j` after a 16-bit setter, for any 16-bit item. */
  lemma SetWordValue(st: StoreState, i: ItemId, v: u16, j: ItemId)
    requires st.WellFormed() && TypeOf(i) == Uint16 && TypeOf(j) == Uint16
    ensures WordValue(SetWord(st, i, v).image, j) == if i == j then v else WordValue(st.image, j)
  {
    SetWordSemantics(st, i, v, j);
    ItemInImage(j);
    if i != j {
      var img := SetWord(st, i, v).image;
      assert ItemBytes(img, j)[0] == img[Addr(j)] && ItemBytes(st.image, j)[0] == st.image[Addr(j)];
      assert ItemBytes(img, j)[1] == img[Addr(j) + 1] && ItemBytes(st.image, j)[1] == st.image[Addr(j) + 1];
    }
  }

  /** A 16-bit setter leaves every one-byte item's value as it was. */
  lemma SetWordKeepsByte(st: StoreState, i: ItemId, v: u16, j: ItemId)
    requires st.WellFormed() && TypeOf(i) == Uint16 && IsByteItem(j)
    ensures ByteValue(SetWord(st, i, v).image, j) == ByteValue(st.image, j)
  {
    SetWordSemantics(st, i, v, j);
    ItemInImage(j);
    var img := SetWord(st, i, v).image;
    assert ItemBytes(img, j)[0] == img[Addr(j)] && ItemBytes(st.image, j)[0] == st.image[Addr(j)];
  }

  /** A one-byte setter leaves every 16-bit item's value as it was. */
  lemma SetByteKeepsWord(st: StoreState, i: ItemId, v: byte, j: ItemId)
    requires st.WellFormed() && IsByteItem(i) && TypeOf(j) == Uint16
    ensures WordValue(SetByte(st, i, v).image, j) == WordValue(st.image, j)
  {
    SetByteSemantics(st, i, v, j);
    ItemInImage(j);
    var img := SetByte(st, i, v).image;
    assert ItemBytes(img, j)[0] == img[Addr(j)] && ItemBytes(st.image, j)[0] == st.image[Addr(j)];
    assert ItemBytes(img, j)[1] == img[Addr(j) + 1] && ItemBytes(st.image, j)[1] == st.image[Addr(j) + 1];
  }

  /**
   * The upgrade from version 3, 4 or 5 applies each later step in order
   * (3: centre minimum speed 20; 4: left and right minimum speeds copied
   * from the centre; 5: features2 cleared), and every upgrade ends by storing
   * version 6.
   */
  lemma MigrateSteps(st: StoreState)
    requires st.WellFormed()
    ensures var v := ByteValue(st.image, ItemVersion); var r := Migrate(st);
      ByteValue(r.image, ItemVersion) == DataStructureVersion &&
      ByteValue(r.image, ItemCenterPadMinDriveSpeed) ==
        (if v == 3 then 20 else ByteValue(st.image, ItemCenterPadMinDriveSpeed)) &&
      (v == 3 || v == 4 ==>
        ByteValue(r.image, ItemLeftPadMinDriveSpeed) == ByteValue(r.image, ItemCenterPadMinDriveSpeed) &&
        ByteValue(r.image, ItemRightPadMinDriveSpeed) == ByteValue(r.image, ItemCenterPadMinDriveSpeed)) &&
      (v != 3 && v != 4 ==>
        ByteValue(r.image, ItemLeftPadMinDriveSpeed) == ByteValue(st.image, ItemLeftPadMinDriveSpeed) &&
        ByteValue(r.image, ItemRightPadMinDriveSpeed) == ByteValue(st.image, ItemRightPadMinDriveSpeed)) &&
      ByteValue(r.image, ItemEnabledFeatures2) ==
        (if 3 <= v <= 5 then 0 else ByteValue(st.image, ItemEnabledFeatures2))
  {
    var v := ByteValue(st.image, ItemVersion);
    var s4 := if v == 3 then UpgradeFrom3(st) else st;
    var s5 := if v == 3 || v == 4 then UpgradeFrom4(s4) else s4;
    var s6 := if 3 <= v <= 5 then UpgradeFrom5(s5) else s5;
    MigrateItem(st, ItemCenterPadMinDriveSpeed);
    MigrateItem(st, ItemLeftPadMinDriveSpeed);
    MigrateItem(st, ItemRightPadMinDriveSpeed);
    MigrateItem(st, ItemEnabledFeatures2);
    SetByteValue(s6, ItemVersion, DataStructureVersion, ItemVersion);
  }

  /** One item's value through the upgrade chain, step by step. */
  lemma MigrateItem(st: StoreState, j: ItemId)
    requires st.WellFormed() && IsByteItem(j) && j != ItemVersion
    ensures var v := ByteValue(st.image, ItemVersion);
      var s4 := if v == 3 then UpgradeFrom3(st) else st;
      var s5 := if v == 3 || v == 4 then UpgradeFrom4(s4) else s4;
      var s6 := if 3 <= v <= 5 then UpgradeFrom5(s5) else s5;
      ByteValue(s4.image, j) == (if v == 3 && j == ItemCenterPadMinDriveSpeed then 20 else ByteValue(st.image, j)) &&
      ByteValue(s5.image, j) ==
        (if (v == 3 || v == 4) && (j == ItemLeftPadMinDriveSpeed || j == ItemRightPadMinDriveSpeed)
         then ByteValue(s4.image, ItemCenterPadMinDriveSpeed) else ByteValue(s4.image, j)) &&
      ByteValue(s6.image, j) == (if 3 <= v <= 5 && j == ItemEnabledFeatures2 then 0 else ByteValue(s5.image, j)) &&
      ByteValue(Migrate(st).image, j) == ByteValue(s6.image, j)
  {
    var v := ByteValue(st.image, ItemVersion);
    var s4 := if v == 3 then UpgradeFrom3(st) else st;
    var s5 := if v == 3 || v == 4 then UpgradeFrom4(s4) else s4;
    var s6 := if 3 <= v <= 5 then UpgradeFrom5(s5) else s5;
    if v == 3 { UpgradeFrom3Value(st, j); UpgradeFrom3Value(st, ItemCenterPadMinDriveSpeed); }
    if v == 3 || v == 4 { UpgradeFrom4Value(s4, j); }
    if 3 <= v <= 5 { UpgradeFrom5Value(s5, j); }
    SetByteValue(s6, ItemVersion, DataStructureVersion, j);
  }

  /** eepromAppInit: whether the EEPROM had been programmed, the new module state and the new EEPROM. */
  function InitState(st: StoreState, mem: seq<byte>): (r: (bool, StoreState, seq<byte>))
    requires st.WellFormed() && |mem| == SizeOfEeprom
    ensures r.1.WellFormed() && |r.2| == SizeOfEeprom
  {
    var boot := StoreState(Defaults(st.image), st.needToSave, false, 0);
    var (programmed, synced) := SyncState(boot, mem);
    if !programmed then
      var (st', mem') := FlushState(synced, mem, true); (false, st', mem')
    else if ByteValue(synced.image, ItemVersion) == DataStructureVersion then
      (true, synced, mem)
    else
      var (st', mem') := FlushState(Migrate(synced), mem, true); (true, st', mem')
  }

  /** A forced flush writes the whole image and clears every flag. */
  lemma ForcedFlush(st: StoreState, mem: seq<byte>)
    requires st.WellFormed() && |mem| == SizeOfEeprom
    ensures var (st', mem') := FlushState(st, mem, true);
      mem'[..ImageSize] == st.image && mem'[ImageSize..] == mem[ImageSize..] &&
      st' == StoreState(st.image, seq(NumItems, _ => false), false, st.count)
  {
    var sel := Selection(st, true);
    var mem' := FlushMem(mem, st.image, sel, NumItems);
    forall a | 0 <= a < SizeOfEeprom
      ensures mem'[a] == if a < ImageSize then st.image[a] else mem[a]
    {
      FlushMemAt(mem, st.image, sel, NumItems, a);
    }
  }

  /** The start-up of an unprogrammed EEPROM: the defaults are written to every item. */
  lemma InitUnprogrammed(st: StoreState, mem: seq<byte>)
    requires st.WellFormed() && |mem| == SizeOfEeprom && mem[0] != InitializedVal
    ensures var (programmed, st', mem') := InitState(st, mem);
      !programmed && st'.image == Defaults(st.image) &&
      mem'[..ImageSize] == st'.image && mem'[ImageSize..] == mem[ImageSize..] &&
      !st'.anyDirty && (forall i: ItemId :: !st'.needToSave[i]) && st'.count == 0
  {
    var boot := StoreState(Defaults(st.image), st.needToSave, false, 0);
    ForcedFlush(boot, mem);
  }

  /** The start-up of an EEPROM at the current version: the image is loaded and nothing is written. */
  lemma InitCurrent(st: StoreState, mem: seq<byte>)
    requires st.WellFormed() && |mem| == SizeOfEeprom && mem[0] == InitializedVal
    requires ByteValue(mem[..ImageSize], ItemVersion) == DataStructureVersion
    ensures var (programmed, st', mem') := InitState(st, mem);
      programmed && st'.image == mem[..ImageSize] && mem' == mem &&
      !st'.anyDirty && st'.count == 0 &&
      (forall i: ItemId :: st'.needToSave[i] ==> i == ItemInitialized && st.needToSave[i])
  {
    var boot := StoreState(Defaults(st.image), st.needToSave, false, 0);
    SyncLoads(boot, mem);
  }

  /**
   * The start-up of an EEPROM at an older version: the upgraded image is
   * written back whole, at version 6 and still marked programmed.
   */
  lemma InitUpgraded(st: StoreState, mem: seq<byte>)
    requires st.WellFormed() && |mem| == SizeOfEeprom && mem[0] == InitializedVal
    requires ByteValue(mem[..ImageSize], ItemVersion) != DataStructureVersion
    ensures var (programmed, st', mem') := InitState(st, mem);
      var (_, synced) := SyncState(StoreState(Defaults(st.image), st.needToSave, false, 0), mem);
      programmed && st'.image == Migrate(synced).image &&
      mem'[..ImageSize] == st'.image && mem'[ImageSize..] == mem[ImageSize..] &&
      ByteValue(st'.image, ItemInitialized) == InitializedVal &&
      ByteValue(st'.image, ItemVersion) == DataStructureVersion &&
      !st'.anyDirty && (forall i: ItemId :: !st'.needToSave[i])
  {
    var boot := StoreState(Defaults(st.image), st.needToSave, false, 0);
    var synced := SyncState(boot, mem).1;
    SyncLoads(boot, mem);
    MigrateSteps(synced);
    SetLeavesMarker(synced);
    ForcedFlush(Migrate(synced), mem);
  }

  /**
   * Whatever the EEPROM held, start-up ends with it holding exactly the RAM
   * image, marked programmed and at the current data-structure version.
   */
  lemma InitEstablishes(st: StoreState, mem: seq<byte>)
    requires st.WellFormed() && |mem| == SizeOfEeprom
    ensures var (programmed, st', mem') := InitState(st, mem);
      programmed == (mem[0] == InitializedVal) &&
      mem'[..ImageSize] == st'.image && mem'[ImageSize..] == mem[ImageSize..] &&
      ByteValue(st'.image, ItemInitialized) == InitializedVal &&
      ByteValue(st'.image, ItemVersion) == DataStructureVersion &&
      !st'.anyDirty
  {
    if mem[0] != InitializedVal {
      InitUnprogrammed(st, mem);
      DefaultsValues(st.image);
    } else if ByteValue(mem[..ImageSize], ItemVersion) == DataStructureVersion {
      InitCurrent(st, mem);
    } else {
      InitUpgraded(st, mem);
    }
  }

  /** The upgrade chain does not touch the marker byte. */
  lemma SetLeavesMarker(st: StoreState)
    requires st.WellFormed()
    ensures ByteValue(Migrate(st).image, ItemInitialized) == ByteValue(st.image, ItemInitialized)
  {
    MigrateItem(st, ItemInitialized);
  }


  /** The store: the module's RAM state over the EEPROM driver. */
  class Store {
    const image: array<byte>
    const needToSave: array<bool>
    var anyDirty: bool
    var count: byte
    const bsp: Eeprom

    ghost predicate Valid()
      reads this, bsp
    {
      image.Length == ImageSize && needToSave.Length == NumItems && bsp.Valid() && image != bsp.mem
    }

    ghost function State(): StoreState
      reads this, image, needToSave
    {
      StoreState(image[..], needToSave[..], anyDirty, count)
    }

    /** The zero-initialised statics of the module, over a given EEPROM. */
    constructor (eeprom: Eeprom)
      requires eeprom.Valid()
      ensures Valid() && bsp == eeprom && fresh(image) && fresh(needToSave)
      ensures State() == StoreState(seq(ImageSize, _ => 0), seq(NumItems, _ => false), false, 0)
    {
      image := new byte[ImageSize](_ => 0);
      needToSave := new bool[NumItems](_ => false);
      anyDirty := false;
      count := 0;
      bsp := eeprom;
    }

    /** eepromBoolGet / eepromEnumGet / eeprom8bitGet. */
    function GetByte(i: ItemId): (r: byte)
      reads this, bsp, image, needToSave
      requires Valid() && IsByteItem(i)
      ensures r == ByteValue(State().image, i)
    {
      ItemInImage(i);
      image[Addr(i)]
    }

    /** eeprom16bitGet. */
    function GetWord(i: ItemId): (r: u16)
      reads this, bsp, image, needToSave
      requires Valid() && TypeOf(i) == Uint16
      ensures r == WordValue(State().image, i)
    {
      ItemInImage(i);
      Join(image[Addr(i) + 1], image[Addr(i)])
    }

    /** eepromAppNumTimesAnyDataHasBeenUpdated. */
    function NumTimesAnyDataHasBeenUpdated(): byte
      reads this
    {
      count
    }

    /** eepromBoolSet / eepromEnumSet / eeprom8bitSet (the type assertion becomes the precondition). */
    method SetByteItem(i: ItemId, v: byte)
      requires Valid() && IsByteItem(i)
      modifies this, image, needToSave
      ensures Valid() && State() == SetByte(old(State()), i, v) && bsp.mem[..] == old(bsp.mem[..])
    {
      ItemInImage(i);
      var a := Addr(i);
      if image[a] != v {
        anyDirty := true;
        needToSave[i] := true;
        image[a] := v;
        count := Wrap8(count + 1);
      }
    }

    /** eeprom16bitSet. */
    method SetWordItem(i: ItemId, v: u16)
      requires Valid() && TypeOf(i) == Uint16
      modifies this, image, needToSave
      ensures Valid() && State() == SetWord(old(State()), i, v) && bsp.mem[..] == old(bsp.mem[..])
    {
      ItemInImage(i);
      var a := Addr(i);
      if Join(image[a + 1], image[a]) != v {
        anyDirty := true;
        needToSave[i] := true;
        image[a] := Lo(v);
        image[a + 1] := Hi(v);
        count := Wrap8(count + 1);
      }
    }

    /** Write16bitVal: the value's two bytes, least significant first, as one buffer write. */
    method Write16bitVal(address: byte, v: u16)
      requires Valid()
      modifies bsp.mem
      ensures bsp.mem[..] == Written(old(bsp.mem[..]), address, [Lo(v), Hi(v)])
    {
      var ok := bsp.WriteBuffer(address, 2, [Lo(v), Hi(v)]);
      assert [Lo(v), Hi(v)][..2] == [Lo(v), Hi(v)];
    }

    /** Read8bitVal. */
    method Read8bitVal(address: byte) returns (r: byte)
      requires Valid()
      ensures r == bsp.mem[address]
    {
      var buffer := new byte[1];
      var ok := bsp.ReadSection(address, 1, buffer);
      r := buffer[0];
    }

    /** Read16bitVal: two bytes, least significant first. */
    method Read16bitVal(address: byte) returns (r: u16)
      requires Valid() && address + 1 < SizeOfEeprom
      ensures r == Join(bsp.mem[address + 1], bsp.mem[address])
    {
      var buffer := new byte[2];
      var ok := bsp.ReadSection(address, 2, buffer);
      assert buffer[..2][1] == buffer[1];
      r := Join(buffer[1], buffer[0]);
    }

    /** eepromFlush. */
    method Flush(force: bool)
      requires Valid()
      modifies this, needToSave, bsp.mem
      ensures Valid()
      ensures (State(), bsp.mem[..]) == FlushState(old(State()), old(bsp.mem[..]), force)
    {
      if force || anyDirty {
        ghost var st0 := State();
        ghost var m0 := bsp.mem[..];
        ghost var sel := Selection(st0, force);
        var item := 0;
        while item < NumItems
          invariant 0 <= item <= NumItems
          invariant image[..] == st0.image && count == st0.count
          invariant forall k :: 0 <= k < item ==> !needToSave[k]
          invariant forall k :: item <= k < NumItems ==> needToSave[k] == st0.needToSave[k]
          invariant bsp.mem[..] == FlushMem(m0, st0.image, sel, item)
        {
          if needToSave[item] || force {
            needToSave[item] := false;
            ItemInImage(item);
            var a := Addr(item);
            if TypeOf(item) == Uint16 {
              var v := Join(image[a + 1], image[a]);
              SplitJoin(image[a + 1], image[a]);
              Write16bitVal(a, v);
            } else {
              var ok := bsp.WriteByte(a, image[a]);
            }
          }
          item := item + 1;
        }
        anyDirty := false;
        assert needToSave[..] == seq(NumItems, _ => false);
      }
    }

    /** SyncWithEeprom. */
    method Sync() returns (ok: bool)
      requires Valid()
      modifies image, needToSave
      ensures Valid()
      ensures (ok, State()) == SyncState(old(State()), bsp.mem[..])
    {
      var isProgrammed := Read8bitVal(Addr(ItemInitialized));
      ok := isProgrammed == InitializedVal;
      if ok {
        image[ItemInitialized] := isProgrammed;
        LoadItems();
      }
    }

    /** SyncWithEeprom's loop: every item after the marker read back, its flag cleared. */
    method LoadItems()
      requires Valid() && image[0] == bsp.mem[0]
      modifies image, needToSave
      ensures Valid()
      ensures image[..] == bsp.mem[..ImageSize]
      ensures needToSave[..] == [old(needToSave[0])] + seq(NumItems - 1, _ => false)
    {
        ghost var flag0 := needToSave[0];
        var item := 1;
        while item < NumItems
          invariant 1 <= item <= NumItems && EndOf(item) <= ImageSize
          invariant forall a :: 0 <= a < EndOf(item) ==> image[a] == bsp.mem[a]
          invariant needToSave[0] == flag0
          invariant forall k :: 1 <= k < item ==> !needToSave[k]
        {
          needToSave[item] := false;
          ItemInImage(item);
          var a := Addr(item);
          if TypeOf(item) == Uint16 {
            var v := Read16bitVal(a);
            SplitJoin(bsp.mem[a + 1], bsp.mem[a]);
            image[a] := Lo(v);
            image[a + 1] := Hi(v);
          } else {
            var b := Read8bitVal(a);
            image[a] := b;
          }
          item := item + 1;
        }
        LastItemEnd();
        assert image[..] == bsp.mem[..ImageSize];
        assert needToSave[..] == [flag0] + seq(NumItems - 1, _ => false);
    }

    /** SetDefaultValues: direct assignments to the image, flagging nothing. */
    method SetDefaultValues()
      requires Valid()
      modifies image
      ensures Valid() && image[..] == Defaults(old(image[..]))
    {
      ItemInImage(ItemEnabledFeatures2);
      image[Addr(ItemInitialized)] := InitializedVal;
      var t := Addr(ItemLongPressActTime);
      image[t] := Lo(DefaultLongPressMs);
      image[t + 1] := Hi(DefaultLongPressMs);
      image[Addr(ItemEnabledFeatures)] := DefaultEnabledFeatures;
      image[Addr(ItemCurrentActiveFeature)] := DefaultActiveFeature;
      image[Addr(ItemVersion)] := DataStructureVersion;
      image[Addr(ItemEnabledFeatures2)] := 0;
    }

    /** eepromAppInit. */
    method Init() returns (programmed: bool)
      requires Valid()
      modifies this, image, needToSave, bsp.mem
      ensures Valid()
      ensures (programmed, State(), bsp.mem[..]) == InitState(old(State()), old(bsp.mem[..]))
    {
      anyDirty := false;
      count := 0;
      SetDefaultValues();
      programmed := Sync();
      if !programmed {
        Flush(true);
      } else {
        var version := GetByte(ItemVersion);
        if version != DataStructureVersion {
          if version == 3 {
            SetByteItem(ItemCenterPadMinDriveSpeed, 20);
            version := 4;
          }
          if version == 4 {
            var speed := GetByte(ItemCenterPadMinDriveSpeed);
            SetByteItem(ItemLeftPadMinDriveSpeed, speed);
            SetByteItem(ItemRightPadMinDriveSpeed, speed);
            version := 5;
          }
          if version == 5 {
            SetByteItem(ItemEnabledFeatures2, 0);
            version := 6;
          }
          SetByteItem(ItemVersion, DataStructureVersion);
          Flush(true);
        }
      }
    }
  }
}
