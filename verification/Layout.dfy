/**
 Where a slot's two byte ranges are: every extent file starts with one header page for each slot
 it can hold, and the bodies follow.
 */
module Layout {
  import Common
  import opened Bytes
  import opened SlotHeaders

  const SLOTS_PER_EXTENT: nat := 4096
  const HEADER_REGION_BYTES: nat := SLOTS_PER_EXTENT * SLOT_HEADER_BYTES
  const DIRECT_IO_ALIGN: nat := 4096

  /** The extent files, by their bytes. */
  type Disk = seq<seq<Byte>>

  function HeaderOffset(within: nat): nat { within * SLOT_HEADER_BYTES }

  function BodyOffset(within: nat, chunkSize: nat): nat { HEADER_REGION_BYTES + within * chunkSize }

  function SlotsInExtent(slotCount: nat, index: nat): nat {
    var left := if index * SLOTS_PER_EXTENT <= slotCount then slotCount - index * SLOTS_PER_EXTENT else 0;
    if left <= SLOTS_PER_EXTENT then left else SLOTS_PER_EXTENT
  }

  function ExtentCount(slotCount: nat): nat { (slotCount + SLOTS_PER_EXTENT - 1) / SLOTS_PER_EXTENT }

  function AlignUp(n: nat): (r: nat)
    ensures n <= r < n + 4096 && r % 4096 == 0
  {
    (n + DIRECT_IO_ALIGN - 1) / DIRECT_IO_ALIGN * DIRECT_IO_ALIGN
  }

  /** Every extent is sized for its header region and the bodies of the slots it holds. */
  ghost predicate Sized(disk: Disk, slotCount: nat, chunkSize: nat) {
    && |disk| == ExtentCount(slotCount)
    && (forall e :: 0 <= e < |disk| ==>
          |disk[e]| == HEADER_REGION_BYTES + SlotsInExtent(slotCount, e) * chunkSize)
  }

  function ExtentOf(slot: nat): nat { slot / SLOTS_PER_EXTENT }

  function Within(slot: nat): nat { slot % SLOTS_PER_EXTENT }

  /** The number of the first slot of extent `index`, or the slot count past the last one. */
  function FirstSlot(slotCount: nat, index: nat): nat {
    if index * SLOTS_PER_EXTENT <= slotCount then index * SLOTS_PER_EXTENT else slotCount
  }

  /** Where a slot's header page and its body begin, in the file of its extent of 4096 slots: the pages
      come first, 16 MiB of them, whatever the chunk size. */
  lemma SlotAddress(slot: nat, chunkSize: nat)
    ensures ExtentOf(slot) == slot / 4096
    ensures HeaderOffset(Within(slot)) == slot % 4096 * 4096
    ensures BodyOffset(Within(slot), chunkSize) == 0x100_0000 + slot % 4096 * chunkSize
  {
  }

  lemma ExtentsCover(slotCount: nat)
    ensures FirstSlot(slotCount, ExtentCount(slotCount)) == slotCount
  {
  }

  lemma NextExtent(slotCount: nat, index: nat)
    requires index < ExtentCount(slotCount)
    ensures FirstSlot(slotCount, index) == index * SLOTS_PER_EXTENT
    ensures FirstSlot(slotCount, index + 1) == index * SLOTS_PER_EXTENT + SlotsInExtent(slotCount, index)
  {
  }

  lemma TimesMonotone(a: nat, b: nat, c: nat)
    requires a < b
    ensures a * c + c <= b * c
  {
    assert b * c == a * c + (b - a) * c;
    assert (b - a) * c == c + (b - a - 1) * c;
  }

  /** Both of a slot's ranges lie inside its extent, header first. */
  lemma SlotInBounds(disk: Disk, slotCount: nat, chunkSize: nat, slot: nat)
    requires Sized(disk, slotCount, chunkSize)
    requires slot < slotCount
    ensures ExtentOf(slot) < |disk|
    ensures HeaderOffset(Within(slot)) + SLOT_HEADER_BYTES <= HEADER_REGION_BYTES
    ensures HEADER_REGION_BYTES <= BodyOffset(Within(slot), chunkSize)
    ensures BodyOffset(Within(slot), chunkSize) + chunkSize <= |disk[ExtentOf(slot)]|
  {
    var e, w := ExtentOf(slot), Within(slot);
    assert slot == e * SLOTS_PER_EXTENT + w;
    assert w < SlotsInExtent(slotCount, e);
    TimesMonotone(w, SlotsInExtent(slotCount, e), chunkSize);
  }

  lemma InOrder(x: nat, y: nat, chunkSize: nat)
    requires x < y
    ensures HeaderOffset(x) + SLOT_HEADER_BYTES <= HeaderOffset(y)
    ensures BodyOffset(x, chunkSize) + chunkSize <= BodyOffset(y, chunkSize)
  {
    TimesMonotone(x, y, chunkSize);
  }

  lemma HeaderBeforeBody(x: nat, y: nat, chunkSize: nat)
    requires x < SLOTS_PER_EXTENT
    ensures HeaderOffset(x) + SLOT_HEADER_BYTES <= BodyOffset(y, chunkSize)
  {
  }

  /** Neither range of one slot meets either range of another. */
  lemma SlotsDisjoint(chunkSize: nat, a: nat, b: nat)
    requires a != b && ExtentOf(a) == ExtentOf(b)
    ensures HeaderOffset(Within(a)) + SLOT_HEADER_BYTES <= HeaderOffset(Within(b))
            || HeaderOffset(Within(b)) + SLOT_HEADER_BYTES <= HeaderOffset(Within(a))
    ensures BodyOffset(Within(a), chunkSize) + chunkSize <= BodyOffset(Within(b), chunkSize)
            || BodyOffset(Within(b), chunkSize) + chunkSize <= BodyOffset(Within(a), chunkSize)
    ensures HeaderOffset(Within(a)) + SLOT_HEADER_BYTES <= BodyOffset(Within(b), chunkSize)
    ensures HeaderOffset(Within(b)) + SLOT_HEADER_BYTES <= BodyOffset(Within(a), chunkSize)
  {
    hide HeaderOffset, BodyOffset;
    var x, y := Within(a), Within(b);
    assert x != y;
    HeaderBeforeBody(x, y, chunkSize);
    HeaderBeforeBody(y, x, chunkSize);
    if x < y {
      InOrder(x, y, chunkSize);
    } else {
      InOrder(y, x, chunkSize);
    }
  }

  // ----- reading and writing at an offset

  function ReadAt(file: seq<Byte>, at: nat, len: nat): (r: seq<Byte>)
    requires at + len <= |file|
    ensures |r| == len
  {
    file[at..at + len]
  }

  function WriteAt(file: seq<Byte>, at: nat, data: seq<Byte>): (r: seq<Byte>)
    requires at + |data| <= |file|
    ensures |r| == |file|
    ensures forall i :: 0 <= i < |file| ==> r[i] == if at <= i < at + |data| then data[i - at] else file[i]
  {
    file[..at] + data + file[at + |data|..]
  }

  lemma ReadAfterWrite(file: seq<Byte>, at: nat, data: seq<Byte>, from: nat, len: nat)
    requires at + |data| <= |file| && from + len <= |file|
    ensures from + len <= at || at + |data| <= from ==>
            ReadAt(WriteAt(file, at, data), from, len) == ReadAt(file, from, len)
    ensures from == at && |data| <= len ==>
              ReadAt(WriteAt(file, at, data), from, len) == data + ReadAt(file, from, len)[|data|..]
  {
  }

  // ----- a slot's header page and body area

  function HeaderPage(disk: Disk, slotCount: nat, chunkSize: nat, slot: nat): (page: seq<Byte>)
    requires Sized(disk, slotCount, chunkSize) && slot < slotCount
    ensures |page| == SLOT_HEADER_BYTES
  {
    SlotInBounds(disk, slotCount, chunkSize, slot);
    ReadAt(disk[ExtentOf(slot)], HeaderOffset(Within(slot)), SLOT_HEADER_BYTES)
  }

  function BodyArea(disk: Disk, slotCount: nat, chunkSize: nat, slot: nat): (area: seq<Byte>)
    requires Sized(disk, slotCount, chunkSize) && slot < slotCount
    ensures |area| == chunkSize
  {
    SlotInBounds(disk, slotCount, chunkSize, slot);
    ReadAt(disk[ExtentOf(slot)], BodyOffset(Within(slot), chunkSize), chunkSize)
  }

  function PutHeader(disk: Disk, slotCount: nat, chunkSize: nat, slot: nat, page: seq<Byte>): (r: Disk)
    requires Sized(disk, slotCount, chunkSize) && slot < slotCount
    requires |page| == SLOT_HEADER_BYTES
    ensures Sized(r, slotCount, chunkSize)
  {
    SlotInBounds(disk, slotCount, chunkSize, slot);
    disk[ExtentOf(slot) := WriteAt(disk[ExtentOf(slot)], HeaderOffset(Within(slot)), page)]
  }

  function PutBody(disk: Disk, slotCount: nat, chunkSize: nat, slot: nat, body: seq<Byte>): (r: Disk)
    requires Sized(disk, slotCount, chunkSize) && slot < slotCount
    requires |body| <= chunkSize
    ensures Sized(r, slotCount, chunkSize)
  {
    SlotInBounds(disk, slotCount, chunkSize, slot);
    disk[ExtentOf(slot) := WriteAt(disk[ExtentOf(slot)], BodyOffset(Within(slot), chunkSize), body)]
  }

  /** The entries of an extent's header region are its slots' header pages. */
  lemma RegionEntry(disk: Disk, slotCount: nat, chunkSize: nat, e: nat, within: nat)
    requires Sized(disk, slotCount, chunkSize) && e < |disk| && within < SlotsInExtent(slotCount, e)
    ensures HEADER_REGION_BYTES <= |disk[e]| && within * SLOT_HEADER_BYTES + SLOT_HEADER_BYTES <= HEADER_REGION_BYTES
    ensures e * SLOTS_PER_EXTENT + within < slotCount
    ensures var at := within * SLOT_HEADER_BYTES;
            ReadAt(disk[e], 0, HEADER_REGION_BYTES)[at..at + SLOT_HEADER_BYTES]
            == HeaderPage(disk, slotCount, chunkSize, e * SLOTS_PER_EXTENT + within)
  {
    var slot := e * SLOTS_PER_EXTENT + within;
    assert ExtentOf(slot) == e && Within(slot) == within;
    SlotInBounds(disk, slotCount, chunkSize, slot);
    var at := within * SLOT_HEADER_BYTES;
    Common.SliceOfSlice(disk[e], 0, HEADER_REGION_BYTES, at, at + SLOT_HEADER_BYTES);
  }

  /** Writing one slot's header changes that page and nothing else any slot can read. */
  lemma PutHeaderFrame(disk: Disk, slotCount: nat, chunkSize: nat, slot: nat, page: seq<Byte>, other: nat)
    requires Sized(disk, slotCount, chunkSize) && slot < slotCount && other < slotCount
    requires |page| == SLOT_HEADER_BYTES
    ensures var r := PutHeader(disk, slotCount, chunkSize, slot, page);
            && HeaderPage(r, slotCount, chunkSize, other)
               == (if other == slot then page else HeaderPage(disk, slotCount, chunkSize, other))
            && BodyArea(r, slotCount, chunkSize, other) == BodyArea(disk, slotCount, chunkSize, other)
  {
    SlotInBounds(disk, slotCount, chunkSize, slot);
    SlotInBounds(disk, slotCount, chunkSize, other);
    if ExtentOf(slot) == ExtentOf(other) {
      var file, at := disk[ExtentOf(slot)], HeaderOffset(Within(slot));
      ReadAfterWrite(file, at, page, HeaderOffset(Within(other)), SLOT_HEADER_BYTES);
      ReadAfterWrite(file, at, page, BodyOffset(Within(other), chunkSize), chunkSize);
      if slot != other {
        SlotsDisjoint(chunkSize, slot, other);
      }
    }
  }

  /** Writing one slot's body changes the front of that body area and nothing else. */
  lemma PutBodyFrame(disk: Disk, slotCount: nat, chunkSize: nat, slot: nat, body: seq<Byte>, other: nat)
    requires Sized(disk, slotCount, chunkSize) && slot < slotCount && other < slotCount
    requires |body| <= chunkSize
    ensures var r := PutBody(disk, slotCount, chunkSize, slot, body);
            && HeaderPage(r, slotCount, chunkSize, other) == HeaderPage(disk, slotCount, chunkSize, other)
            && BodyArea(r, slotCount, chunkSize, other)
               == (if other == slot then body + BodyArea(disk, slotCount, chunkSize, other)[|body|..]
                   else BodyArea(disk, slotCount, chunkSize, other))
  {
    SlotInBounds(disk, slotCount, chunkSize, slot);
    SlotInBounds(disk, slotCount, chunkSize, other);
    if ExtentOf(slot) == ExtentOf(other) {
      var file, at := disk[ExtentOf(slot)], BodyOffset(Within(slot), chunkSize);
      ReadAfterWrite(file, at, body, HeaderOffset(Within(other)), SLOT_HEADER_BYTES);
      ReadAfterWrite(file, at, body, BodyOffset(Within(other), chunkSize), chunkSize);
      if slot != other {
        SlotsDisjoint(chunkSize, slot, other);
      }
    }
  }
}
