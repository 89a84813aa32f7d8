/** Walking a descriptor with a table of its fields, and the table for the device descriptor. */
module Descriptor {
  import opened Words
  import opened Query

  datatype DescItem = DescItem(offset: Byte, name: string)

  /** One line of the output. */
  datatype Line = Line(offset: nat, name: string, value: nat)

  /** The size of a field, from the prefix of its name. */
  function FieldNameToSize(name: string): (size: nat)
    ensures size == 1 || size == 2 || size == 4 || size == 8
  {
    if name == "" then 1
    else if name[0] == 'w' then 2
    else if name[0] == 'd' then 4
    else if name[0] == 'q' then 8
    else 1
  }

  /** strncmp(name, "Reserved", 8) == 0. */
  predicate Reserved(name: string) {
    "Reserved" <= name
  }

  /** What a name says: its first character the size, its first eight whether it is a reserved field. */
  lemma NamesMean(name: string)
    ensures FieldNameToSize(name) == 2 <==> "w" <= name
    ensures FieldNameToSize(name) == 4 <==> "d" <= name
    ensures FieldNameToSize(name) == 8 <==> "q" <= name
    ensures Reserved(name) <==> |name| >= 8 && name[..8] == "Reserved"
  {
    if |name| >= 8 && name[..8] == "Reserved" {
      assert "Reserved" == name[..8];
    }
  }

  /** Where a field ends. */
  function EndOf(item: DescItem): nat {
    item.offset + FieldNameToSize(item.name)
  }

  predicate Fits(item: DescItem, limit: nat) {
    EndOf(item) <= limit
  }

  function LineOf(item: DescItem, bytes: seq<Byte>): Line
    requires Fits(item, |bytes|)
  {
    Line(item.offset, item.name, FromBigEndian(bytes[item.offset..EndOf(item)]))
  }

  /** What the walk prints: it skips reserved fields and stops at the first that does not fit. */
  function Walk(items: seq<DescItem>, bytes: seq<Byte>): seq<Line> {
    if items == [] then []
    else if Reserved(items[0].name) then Walk(items[1..], bytes)
    else if !Fits(items[0], |bytes|) then []
    else [LineOf(items[0], bytes)] + Walk(items[1..], bytes)
  }

  /** What it ought to print: every field that fits. */
  function AllThatFit(items: seq<DescItem>, bytes: seq<Byte>): seq<Line> {
    if items == [] then []
    else if Reserved(items[0].name) || !Fits(items[0], |bytes|) then AllThatFit(items[1..], bytes)
    else [LineOf(items[0], bytes)] + AllThatFit(items[1..], bytes)
  }

  /** Some field that fits comes after one that does not. */
  ghost predicate FitsAfterMiss(items: seq<DescItem>, limit: nat) {
    exists i, j | 0 <= i < j < |items| ::
      && !Reserved(items[i].name) && !Fits(items[i], limit)
      && !Reserved(items[j].name) && Fits(items[j], limit)
  }

  /** The early stop loses nothing exactly when no field that fits comes after one that does
      not. */
  lemma {:induction false} StopLosesNothing(items: seq<DescItem>, bytes: seq<Byte>)
    ensures Walk(items, bytes) == AllThatFit(items, bytes) <==> !FitsAfterMiss(items, |bytes|)
  {
    if items != [] {
      var rest := items[1..];
      StopLosesNothing(rest, bytes);
      if FitsAfterMiss(rest, |bytes|) {
        var i, j :| 0 <= i < j < |rest| && !Reserved(rest[i].name) && !Fits(rest[i], |bytes|)
          && !Reserved(rest[j].name) && Fits(rest[j], |bytes|);
        assert rest[i] == items[i + 1] && rest[j] == items[j + 1];
      }
      if FitsAfterMiss(items, |bytes|) {
        var i, j :| 0 <= i < j < |items| && !Reserved(items[i].name) && !Fits(items[i], |bytes|)
          && !Reserved(items[j].name) && Fits(items[j], |bytes|);
        assert items[j] == rest[j - 1] && (i > 0 ==> items[i] == rest[i - 1]);
      }
      NothingFits(rest, bytes);
      if !Reserved(items[0].name) && Fits(items[0], |bytes|) {
        assert Walk(items, bytes)[1..] == Walk(rest, bytes) && AllThatFit(items, bytes)[1..] == AllThatFit(rest, bytes);
      }
    }
  }

  lemma {:induction false} NothingFits(items: seq<DescItem>, bytes: seq<Byte>)
    ensures AllThatFit(items, bytes) == [] <==>
      forall j | 0 <= j < |items| :: Reserved(items[j].name) || !Fits(items[j], |bytes|)
  {
    if items != [] {
      NothingFits(items[1..], bytes);
      assert forall j | 0 <= j < |items| - 1 :: items[1..][j] == items[j + 1];
    }
  }

  /** A line stands for a field that is not reserved and fits. */
  lemma {:induction false} LinesAreFields(items: seq<DescItem>, bytes: seq<Byte>, line: Line)
    ensures line in AllThatFit(items, bytes) <==>
      exists item :: item in items && !Reserved(item.name) && Fits(item, |bytes|) && line == LineOf(item, bytes)
  {
    if items != [] {
      LinesAreFields(items[1..], bytes, line);
      assert items == [items[0]] + items[1..];
    }
  }

  // ----- The table -----

  function NextOffset(items: seq<DescItem>, i: nat, end: nat): nat {
    if i + 1 < |items| then items[i + 1].offset else end
  }

  /** The field ends where the next begins; a reserved one has some room. */
  predicate Fills(item: DescItem, next: nat) {
    if Reserved(item.name) then item.offset < next else EndOf(item) == next
  }

  /** The fields cover [start, end) in order, without gaps or overlaps. */
  predicate Tiled(items: seq<DescItem>, start: nat, end: nat) {
    && items != [] && items[0].offset == start
    && forall i | 0 <= i < |items| :: Fills(items[i], NextOffset(items, i, end))
  }

  lemma TiledAppend(a: seq<DescItem>, b: seq<DescItem>, start: nat, middle: nat, end: nat)
    requires Tiled(a, start, middle) && Tiled(b, middle, end)
    ensures Tiled(a + b, start, end)
  {
  }

  /** In a tiled table the ends only grow. */
  lemma {:induction false} TiledEnds(items: seq<DescItem>, start: nat, end: nat, i: nat, j: nat)
    requires Tiled(items, start, end) && i < j < |items|
    ensures NextOffset(items, i, end) <= items[j].offset
    decreases j - i
  {
    assert Fills(items[i], NextOffset(items, i, end));
    if i + 1 < j {
      TiledEnds(items, start, end, i + 1, j);
      assert Fills(items[i + 1], NextOffset(items, i + 1, end));
    }
  }

  /** So with a tiled table, whatever the buffer and its length, the walk prints exactly the
      fields that fit. */
  lemma TiledWalkIsComplete(items: seq<DescItem>, start: nat, end: nat, bytes: seq<Byte>)
    requires Tiled(items, start, end)
    ensures Walk(items, bytes) == AllThatFit(items, bytes)
  {
    forall i, j | 0 <= i < j < |items| && !Reserved(items[i].name) && !Fits(items[i], |bytes|)
      ensures !Fits(items[j], |bytes|)
    {
      TiledEnds(items, start, end, i, j);
      assert Fills(items[i], NextOffset(items, i, end));
    }
    StopLosesNothing(items, bytes);
  }

  /** The byte at the offset is one of the field's. */
  predicate ByteOfField(o: nat, item: DescItem) {
    item.offset <= o < EndOf(item)
  }

  /** A field of a tiled table is printed exactly when it is not reserved and every byte of it lies below the
      limit. */
  lemma PrintedExactly(items: seq<DescItem>, start: nat, end: nat, bytes: seq<Byte>, item: DescItem)
    requires Tiled(items, start, end) && item in items
    ensures (exists line :: line in AllThatFit(items, bytes) && line.offset == item.offset) <==>
      !Reserved(item.name) && forall o: nat | ByteOfField(o, item) :: o < |bytes|
  {
    AllBelow(item, |bytes|);
    hide Tiled, Fits, Reserved, AllThatFit, ByteOfField;
    if line :| line in AllThatFit(items, bytes) && line.offset == item.offset {
      LinesAreFields(items, bytes, line);
      var other :| other in items && !Reserved(other.name) && Fits(other, |bytes|) && line == LineOf(other, bytes);
      SameOffset(items, start, end, other, item);
    }
    if !Reserved(item.name) && Fits(item, |bytes|) {
      LinesAreFields(items, bytes, LineOf(item, bytes));
    }
  }

  lemma AllBelow(item: DescItem, limit: nat)
    ensures Fits(item, limit) <==> forall o: nat | ByteOfField(o, item) :: o < limit
  {
    if forall o: nat | ByteOfField(o, item) :: o < limit {
      assert ByteOfField(EndOf(item) - 1, item);
    }
  }

  lemma SameOffset(items: seq<DescItem>, start: nat, end: nat, a: DescItem, b: DescItem)
    requires Tiled(items, start, end) && a in items && b in items && a.offset == b.offset
    ensures a == b
  {
    var i :| 0 <= i < |items| && items[i] == a;
    var j :| 0 <= j < |items| && items[j] == b;
    assert Fills(items[i], NextOffset(items, i, end)) && Fills(items[j], NextOffset(items, j, end));
    if i < j {
      TiledEnds(items, start, end, i, j);
    } else if j < i {
      TiledEnds(items, start, end, j, i);
    }
  }

  /** Every byte of the table's range belongs to exactly one field. */
  lemma {:induction false} ByteHasField(items: seq<DescItem>, start: nat, end: nat, o: nat) returns (i: nat)
    requires Tiled(items, start, end) && start <= o < end
    ensures i < |items| && items[i].offset <= o < NextOffset(items, i, end)
    ensures forall j | 0 <= j < |items| && items[j].offset <= o < NextOffset(items, j, end) :: j == i
  {
    i := 0;
    while i + 1 < |items| && items[i + 1].offset <= o
      invariant i < |items| && items[i].offset <= o
    {
      i := i + 1;
    }
    forall j | 0 <= j < |items| && items[j].offset <= o < NextOffset(items, j, end)
      ensures j == i
    {
      if i < j {
        TiledEnds(items, start, end, i, j);
      } else if j < i {
        TiledEnds(items, start, end, j, i);
      }
    }
  }

  /** A printed value stands for the very bytes of its field. */
  lemma LineKeepsBytes(item: DescItem, bytes: seq<Byte>)
    requires Fits(item, |bytes|)
    ensures BigEndian(LineOf(item, bytes).value, FieldNameToSize(item.name)) == bytes[item.offset..EndOf(item)]
  {
    BytesRoundTrip(bytes[item.offset..EndOf(item)]);
  }

  // The table for the device descriptor, in rows.

  function DeviceClassFields(): seq<DescItem> {
    [DescItem(0x00, "bLength"), DescItem(0x01, "bDescriptorIDN"), DescItem(0x02, "bDevice"),
     DescItem(0x03, "bDeviceClass"), DescItem(0x04, "bDeviceSubClass"), DescItem(0x05, "bProtocol"),
     DescItem(0x06, "bNumberLU"), DescItem(0x07, "bNumberWLU")]
  }

  function BootFields(): seq<DescItem> {
    [DescItem(0x08, "bBootEnable"), DescItem(0x09, "bDescrAccessEn"), DescItem(0x0A, "bInitPowerMode"),
     DescItem(0x0B, "bHighPriorityLUN")]
  }

  function SecurityFields(): seq<DescItem> {
    [DescItem(0x0C, "bSecureRemovalType"), DescItem(0x0D, "bSecurityLU"),
     DescItem(0x0E, "bBackgroundOpsTermLat"), DescItem(0x0F, "bInitActiveICCLevel")]
  }

  function NameFields(): seq<DescItem> {
    [DescItem(0x10, "wSpecVersion"), DescItem(0x12, "wManufactureDate"), DescItem(0x14, "iManufacturerName"),
     DescItem(0x15, "iProductName"), DescItem(0x16, "iSerialNumber"), DescItem(0x17, "iOemID"),
     DescItem(0x18, "wManufacturerID")]
  }

  function CapabilityFields(): seq<DescItem> {
    [DescItem(0x1A, "bUD0BaseOffset"), DescItem(0x1B, "bUDConfigPLength"), DescItem(0x1C, "bDeviceRTTCap"),
     DescItem(0x1D, "wPeriodicRTCUpdate"), DescItem(0x1F, "bUFSFeaturesSupport"), DescItem(0x20, "bFFUTimeout"),
     DescItem(0x21, "bQueueDepth")]
  }

  function VersionFields(): seq<DescItem> {
    [DescItem(0x22, "wDeviceVersion"), DescItem(0x24, "bNumSecureWPArea"), DescItem(0x25, "dPSAMaxDataSize"),
     DescItem(0x29, "bPSAStateTimeout"), DescItem(0x2A, "iProductRevisionLevel")]
  }

  function ReservedFields(): seq<DescItem> {
    [DescItem(0x2B, "Reserved[5]"), DescItem(0x30, "Reserved[16]"), DescItem(0x40, "Reserved[3]"),
     DescItem(0x43, "Reserved[10]")]
  }

  function ExtendedFields(): seq<DescItem> {
    [DescItem(0x4D, "wExtendedWriteBoosterSupport"), DescItem(0x4F, "dExtendedUFSFeaturesSupport"),
     DescItem(0x53, "bWriteBoosterBufferPreserveUserSpaceEn"), DescItem(0x54, "bWriteBoosterBufferType"),
     DescItem(0x55, "dNumSharedWriteBoosterBufferAllocUnits")]
  }

  function UfsDevDesc(): seq<DescItem> {
    DeviceClassFields() + BootFields() + SecurityFields() + NameFields() + CapabilityFields() + VersionFields()
    + ReservedFields() + ExtendedFields()
  }

  lemma DeviceClassTiled() ensures Tiled(DeviceClassFields(), 0x00, 0x08) {}

  lemma BootTiled() ensures Tiled(BootFields(), 0x08, 0x0C) {}

  lemma SecurityTiled() ensures Tiled(SecurityFields(), 0x0C, 0x10) {}

  lemma NameTiled() ensures Tiled(NameFields(), 0x10, 0x1A) {}

  lemma CapabilityTiled() ensures Tiled(CapabilityFields(), 0x1A, 0x22) {}

  lemma VersionTiled() ensures Tiled(VersionFields(), 0x22, 0x2B) {}

  lemma ReservedTiled() ensures Tiled(ReservedFields(), 0x2B, 0x4D) {}

  lemma ExtendedTiled() ensures Tiled(ExtendedFields(), 0x4D, 0x59) {}

  /** The device descriptor's fields tile [0x00, 0x59). */
  lemma DeviceTableTiled()
    ensures Tiled(UfsDevDesc(), 0x00, 0x59)
  {
    DeviceClassTiled();
    BootTiled();
    SecurityTiled();
    NameTiled();
    CapabilityTiled();
    VersionTiled();
    ReservedTiled();
    ExtendedTiled();
    hide DeviceClassFields, BootFields, SecurityFields, NameFields, CapabilityFields, VersionFields,
         ReservedFields, ExtendedFields, Tiled;
    var a := DeviceClassFields() + BootFields() + SecurityFields();
    TiledAppend(DeviceClassFields(), BootFields(), 0x00, 0x08, 0x0C);
    TiledAppend(DeviceClassFields() + BootFields(), SecurityFields(), 0x00, 0x0C, 0x10);
    TiledAppend(a, NameFields(), 0x00, 0x10, 0x1A);
    TiledAppend(a + NameFields(), CapabilityFields(), 0x00, 0x1A, 0x22);
    TiledAppend(a + NameFields() + CapabilityFields(), VersionFields(), 0x00, 0x22, 0x2B);
    TiledAppend(a + NameFields() + CapabilityFields() + VersionFields(), ReservedFields(), 0x00, 0x2B, 0x4D);
    TiledAppend(a + NameFields() + CapabilityFields() + VersionFields() + ReservedFields(), ExtendedFields(), 0x00, 0x4D, 0x59);
  }

  // ----- The walk -----

  function Min(a: nat, b: nat): (m: nat)
    ensures m <= a && m <= b && (m == a || m == b)
  {
    if a < b then a else b
  }

  /** be16toh, be32toh and be64toh at an offset of the buffer. */
  function Load(buf: array<Byte>, offset: nat, size: nat): nat
    requires offset + size <= buf.Length
    reads buf
  {
    FromBigEndian(buf[offset..offset + size])
  }

  /** Only bytes below both the given length and the descriptor's own are looked at. */
  method UfsDescTranslate(desc: array<Byte>, len: Word16, fields: seq<DescItem>) returns (lines: seq<Line>)
    requires len >= 1 ==> desc.Length >= 1 && Min(len, desc[0]) <= desc.Length
    ensures lines == if len < 1 then [] else Walk(fields, desc[..Min(len, desc[0])])
  {
    lines := [];
    if len < 1 {
      return;
    }
    var i := 0;
    ghost var bytes := desc[..Min(len, desc[0])];
    while i < |fields|
      invariant i <= |fields| && Walk(fields, bytes) == lines + Walk(fields[i..], bytes)
      decreases |fields| - i
    {
      var item := fields[i];
      assert fields[i..][0] == item && fields[i..][1..] == fields[i + 1..];
      i := i + 1;
      if Reserved(item.name) {
        continue;
      }
      var size := FieldNameToSize(item.name);
      if item.offset + size > Min(len, desc[0]) {
        break;
      }
      assert bytes[item.offset..EndOf(item)] == desc[item.offset..item.offset + size];
      lines := lines + [Line(item.offset, item.name, Load(desc, item.offset, size))];
    }
  }

  /** The device descriptor: exactly the non-reserved fields that fit, whatever the buffer says. */
  method TranslateDeviceDescriptor(desc: array<Byte>, len: Word16) returns (lines: seq<Line>)
    requires len >= 1 ==> desc.Length >= 1 && Min(len, desc[0]) <= desc.Length
    ensures lines == if len < 1 then [] else AllThatFit(UfsDevDesc(), desc[..Min(len, desc[0])])
  {
    lines := UfsDescTranslate(desc, len, UfsDevDesc());
    DeviceTableTiled();
    hide UfsDevDesc, Tiled;
    if len >= 1 {
      TiledWalkIsComplete(UfsDevDesc(), 0x00, 0x59, desc[..Min(len, desc[0])]);
    }
  }
}
