/**
 The chunk store over its extent files, byte for byte: `put`, `get`, `remove` and the startup
 scan, run one at a time, do what the reference cache does, whichever reads and writes fail.
 */
module ChunkStores {
  import opened Common
  import opened Bytes
  import opened Crc
  import opened SlotHeaders
  import opened Layout
  import opened LruIndex
  import LruCache

  type Chunk = LruCache.Chunk

  datatype ReadShape = TwoRead | Overlap

  datatype Config = Config(chunkSize: nat, slotCount: nat, verifyBody: bool, readShape: ReadShape) {
    /** What `open` insists on (a page-multiple chunk size) and what the slot arithmetic assumes
        (a body length fits a `u32`); the slot count is never zero. */
    predicate Valid() {
      slotCount > 0 && chunkSize % DIRECT_IO_ALIGN == 0 && chunkSize < 0x1_0000_0000
    }
  }

  /** What a slot's page and body area read as for `key`. */
  function ReadPage(cfg: Config, page: seq<Byte>, area: seq<Byte>, key: Key): Option<Chunk>
    requires |page| == SLOT_HEADER_BYTES && |area| == cfg.chunkSize
  {
    match Parse(page, cfg.chunkSize)
    case Err(_) => None
    case Ok(h) =>
      if h.key != key then None
      else
        var body := area[..h.bodyLen];
        if cfg.verifyBody && BodyCrc(body) != h.bodyCrc then None
        else Some(LruCache.Chunk(body, h.eTag))
  }

  function SlotChunk(cfg: Config, disk: Disk, slot: nat, key: Key): Option<Chunk>
    requires Sized(disk, cfg.slotCount, cfg.chunkSize) && slot < cfg.slotCount
  {
    ReadPage(cfg, HeaderPage(disk, cfg.slotCount, cfg.chunkSize, slot),
             BodyArea(disk, cfg.slotCount, cfg.chunkSize, slot), key)
  }

  ghost predicate Matches(cfg: Config, v: Lru, disk: Disk) {
    v.Valid(cfg.slotCount) && Sized(disk, cfg.slotCount, cfg.chunkSize)
  }

  /** The entry each slot contributes. */
  ghost function Entries(cfg: Config, keyOf: map<nat, Key>, disk: Disk): nat -> LruCache.Entry
    requires Sized(disk, cfg.slotCount, cfg.chunkSize)
  {
    s => if s in keyOf && s < cfg.slotCount then LruCache.Entry(keyOf[s], SlotChunk(cfg, disk, s, keyOf[s]))
         else LruCache.Entry([], None)
  }

  ghost function Mapped(order: seq<nat>, f: nat -> LruCache.Entry): (c: LruCache.Cache)
    ensures |c| == |order|
    ensures forall i :: 0 <= i < |c| ==> c[i] == f(order[i])
  {
    seq(|order|, i requires 0 <= i < |order| => f(order[i]))
  }

  /** What an index and a disk mean together: the held keys in recency order, each with the
      chunk its slot reads as. */
  ghost function Contents(cfg: Config, v: Lru, disk: Disk): (c: LruCache.Cache)
    requires Matches(cfg, v, disk)
    ensures |c| == |v.order|
  {
    Mapped(v.order, Entries(cfg, v.keyOf, disk))
  }

  // ----- how the index operations act on the contents

  lemma MappedGap(order: seq<nat>, f: nat -> LruCache.Entry, i: nat)
    requires i < |order|
    ensures Mapped(order[..i] + order[i + 1..], f) == Mapped(order, f)[..i] + Mapped(order, f)[i + 1..]
  {
  }

  lemma MappedWithout(order: seq<nat>, f: nat -> LruCache.Entry, i: nat)
    requires Distinct(order) && LruCache.DistinctKeys(Mapped(order, f))
    requires i < |order|
    ensures Mapped(Without(order, order[i]), f) == LruCache.Drop(Mapped(order, f), f(order[i]).key)
    ensures LruCache.Find(Mapped(order, f), f(order[i]).key) == Some(f(order[i]))
  {
    WithoutAt<nat>(order, i);
    MappedGap(order, f, i);
    LruCache.DropAt(Mapped(order, f), i);
  }

  lemma MappedAppend(order: seq<nat>, f: nat -> LruCache.Entry, s: nat)
    ensures Mapped(order + [s], f) == Mapped(order, f) + [f(s)]
  {
  }

  /** Slots that keep their key and read the same contribute the same entries. */
  lemma SameEntries(cfg: Config, order: seq<nat>, keyOf: map<nat, Key>, keyOf': map<nat, Key>, disk: Disk, disk': Disk)
    requires Sized(disk, cfg.slotCount, cfg.chunkSize) && Sized(disk', cfg.slotCount, cfg.chunkSize)
    requires SameKeys(order, keyOf, keyOf')
    requires forall i :: 0 <= i < |order| && order[i] < cfg.slotCount ==>
               SlotChunk(cfg, disk, order[i], keyOf[order[i]]) == SlotChunk(cfg, disk', order[i], keyOf[order[i]])
    ensures Mapped(order, Entries(cfg, keyOf, disk)) == Mapped(order, Entries(cfg, keyOf', disk'))
  {
  }

  lemma ContentsDistinct(cfg: Config, v: Lru, disk: Disk)
    requires Matches(cfg, v, disk)
    ensures LruCache.DistinctKeys(Contents(cfg, v, disk))
  {
  }

  lemma FindHeld(cfg: Config, v: Lru, disk: Disk, key: Key)
    requires Matches(cfg, v, disk)
    ensures LruCache.Find(Contents(cfg, v, disk), key) ==
            if key in v.slotOf then Some(LruCache.Entry(key, SlotChunk(cfg, disk, v.slotOf[key], key))) else None
  {
    ContentsDistinct(cfg, v, disk);
    if key in v.slotOf {
      var i :| 0 <= i < |v.order| && v.order[i] == v.slotOf[key];
      MappedWithout(v.order, Entries(cfg, v.keyOf, disk), i);
    }
  }

  lemma TouchContents(cfg: Config, v: Lru, disk: Disk, key: Key)
    requires Matches(cfg, v, disk)
    requires key in v.slotOf
    ensures Matches(cfg, v.Touch(key).0, disk)
    ensures Contents(cfg, v.Touch(key).0, disk) ==
            LruCache.Drop(Contents(cfg, v, disk), key) + [LruCache.Entry(key, SlotChunk(cfg, disk, v.slotOf[key], key))]
  {
    TouchKeeps(v, cfg.slotCount, key);
    ContentsDistinct(cfg, v, disk);
    var i :| 0 <= i < |v.order| && v.order[i] == v.slotOf[key];
    var f := Entries(cfg, v.keyOf, disk);
    MappedWithout(v.order, f, i);
    MappedAppend(Without<nat>(v.order, v.order[i]), f, v.order[i]);
  }

  lemma ForgetContents(cfg: Config, v: Lru, disk: Disk, slot: nat)
    requires Matches(cfg, v, disk)
    requires slot in v.keyOf
    ensures Matches(cfg, v.Forget(slot), disk)
    ensures Contents(cfg, v.Forget(slot), disk) == LruCache.Drop(Contents(cfg, v, disk), v.keyOf[slot])
  {
    ForgetKeeps(v, cfg.slotCount, slot);
    ContentsDistinct(cfg, v, disk);
    var i :| 0 <= i < |v.order| && v.order[i] == slot;
    MappedWithout(v.order, Entries(cfg, v.keyOf, disk), i);
    ForgetShape(v, cfg.slotCount, slot);
    SameEntries(cfg, v.Forget(slot).order, v.keyOf, v.Forget(slot).keyOf, disk, disk);
  }

  lemma StayingIsRoom(cfg: Config, v: Lru, disk: Disk)
    requires cfg.Valid() && Matches(cfg, v, disk)
    ensures Mapped(Staying(v), Entries(cfg, v.keyOf, disk)) == LruCache.Room(Contents(cfg, v, disk), cfg.slotCount)
  {
    HeldPlusFree(v, cfg.slotCount);
  }

  /** Appending a slot behind slots that keep their entries appends its entry. */
  lemma AppendedContents(cfg: Config, stay: seq<nat>, slot: nat, key: Key, keyOf: map<nat, Key>, w: Lru,
                         disk: Disk, disk': Disk)
    requires Sized(disk, cfg.slotCount, cfg.chunkSize) && Matches(cfg, w, disk')
    requires w.order == stay + [slot] && slot < cfg.slotCount && slot in w.keyOf && w.keyOf[slot] == key
    requires slot !in stay && SameKeys(stay, keyOf, w.keyOf)
    requires forall s, k :: 0 <= s < cfg.slotCount && s != slot ==>
               SlotChunk(cfg, disk', s, k) == SlotChunk(cfg, disk, s, k)
    ensures Contents(cfg, w, disk') ==
            Mapped(stay, Entries(cfg, keyOf, disk)) + [LruCache.Entry(key, SlotChunk(cfg, disk', slot, key))]
  {
    MappedAppend(stay, Entries(cfg, w.keyOf, disk'), slot);
    SameEntries(cfg, stay, keyOf, w.keyOf, disk, disk');
  }

  /** Claiming a slot for a new key and then writing only that slot appends the key's entry,
      after the least recently used one has made way if every slot was taken. */
  lemma ClaimContents(cfg: Config, v: Lru, disk: Disk, disk': Disk, key: Key, slot: nat)
    requires cfg.Valid() && Matches(cfg, v, disk)
    requires key !in v.slotOf && v.Claim(key).1 == Some(slot)
    requires Sized(disk', cfg.slotCount, cfg.chunkSize)
    requires forall s, k :: 0 <= s < cfg.slotCount && s != slot ==>
               SlotChunk(cfg, disk', s, k) == SlotChunk(cfg, disk, s, k)
    ensures slot < cfg.slotCount && Matches(cfg, v.Claim(key).0, disk')
    ensures Contents(cfg, v.Claim(key).0, disk') ==
            LruCache.Room(Contents(cfg, v, disk), cfg.slotCount)
            + [LruCache.Entry(key, SlotChunk(cfg, disk', slot, key))]
  {
    ClaimKeeps(v, cfg.slotCount, key);
    ClaimShape(v, cfg.slotCount, key);
    AppendedContents(cfg, Staying(v), slot, key, v.keyOf, v.Claim(key).0, disk, disk');
    StayingIsRoom(cfg, v, disk);
  }

  // ----- writing a slot

  function Header(key: Utf8, chunk: Chunk): SlotHeader
    requires |chunk.body| < 0x1_0000_0000
  {
    SlotHeader(key, |chunk.body|, BodyCrc(chunk.body), chunk.eTag)
  }

  /** The disk after the body and then the header of `slot` have been written. */
  function SlotWritten(cfg: Config, disk: Disk, slot: nat, key: Utf8, chunk: Chunk): (r: Disk)
    requires cfg.Valid() && Sized(disk, cfg.slotCount, cfg.chunkSize) && slot < cfg.slotCount
    requires |chunk.body| <= cfg.chunkSize && Fits(Header(key, chunk))
    ensures Sized(r, cfg.slotCount, cfg.chunkSize)
  {
    PutHeader(PutBody(disk, cfg.slotCount, cfg.chunkSize, slot, chunk.body),
              cfg.slotCount, cfg.chunkSize, slot, Page(Header(key, chunk)))
  }

  /** A written slot reads as what was written, checked or not, and no other slot changes. */
  lemma SlotWrittenReads(cfg: Config, disk: Disk, slot: nat, key: Utf8, chunk: Chunk, s: nat, k: Key)
    requires cfg.Valid() && Sized(disk, cfg.slotCount, cfg.chunkSize) && slot < cfg.slotCount && s < cfg.slotCount
    requires |chunk.body| <= cfg.chunkSize && Fits(Header(key, chunk))
    ensures var r := SlotWritten(cfg, disk, slot, key, chunk);
            && (s != slot ==> SlotChunk(cfg, r, s, k) == SlotChunk(cfg, disk, s, k))
            && SlotChunk(cfg, r, slot, key) == LruCache.Stored(key, chunk)
  {
    var n, size := cfg.slotCount, cfg.chunkSize;
    var h := Header(key, chunk);
    var mid := PutBody(disk, n, size, slot, chunk.body);
    PutBodyFrame(disk, n, size, slot, chunk.body, s);
    PutHeaderFrame(mid, n, size, slot, Page(h), s);
    PutBodyFrame(disk, n, size, slot, chunk.body, slot);
    PutHeaderFrame(mid, n, size, slot, Page(h), slot);
    ParseOfPage(h, size);
    var area := BodyArea(SlotWritten(cfg, disk, slot, key, chunk), n, size, slot);
    assert area[..|chunk.body|] == chunk.body;
  }

  /** How a slot's write can fail: part way through the body, at the sync behind it, or part way
      through the header page. What is left behind is arbitrary. */
  datatype WriteFault = BodyFails(left: seq<Byte>) | SyncFails | HeaderFails(left: seq<Byte>)

  /** The disk after a write of `slot` that failed. */
  function SlotTorn(cfg: Config, disk: Disk, slot: nat, body: seq<Byte>, fault: WriteFault): (r: Disk)
    requires Sized(disk, cfg.slotCount, cfg.chunkSize) && slot < cfg.slotCount && |body| <= cfg.chunkSize
    ensures Sized(r, cfg.slotCount, cfg.chunkSize)
  {
    match fault
    case BodyFails(left) =>
      if |left| <= cfg.chunkSize then PutBody(disk, cfg.slotCount, cfg.chunkSize, slot, left) else disk
    case SyncFails => PutBody(disk, cfg.slotCount, cfg.chunkSize, slot, body)
    case HeaderFails(left) =>
      var mid := PutBody(disk, cfg.slotCount, cfg.chunkSize, slot, body);
      if |left| == SLOT_HEADER_BYTES then PutHeader(mid, cfg.slotCount, cfg.chunkSize, slot, left) else mid
  }

  /** A failed write is confined to its slot. */
  lemma TornElsewhere(cfg: Config, disk: Disk, slot: nat, body: seq<Byte>, fault: WriteFault, s: nat, k: Key)
    requires Sized(disk, cfg.slotCount, cfg.chunkSize) && slot < cfg.slotCount && |body| <= cfg.chunkSize
    requires s < cfg.slotCount && s != slot
    ensures SlotChunk(cfg, SlotTorn(cfg, disk, slot, body, fault), s, k) == SlotChunk(cfg, disk, s, k)
  {
    hide ReadPage;
    var n, size := cfg.slotCount, cfg.chunkSize;
    match fault
    case BodyFails(left) =>
      if |left| <= size {
        PutBodyFrame(disk, n, size, slot, left, s);
      }
    case SyncFails => PutBodyFrame(disk, n, size, slot, body, s);
    case HeaderFails(left) =>
      PutBodyFrame(disk, n, size, slot, body, s);
      if |left| == SLOT_HEADER_BYTES {
        PutHeaderFrame(PutBody(disk, n, size, slot, body), n, size, slot, left, s);
      }
  }

  /** Which of a slot's two reads fails, if it is made. */
  datatype ReadFault = ReadFault(header: bool, body: bool)

  /** The slot's header names `key`. */
  predicate Names(cfg: Config, disk: Disk, slot: nat, key: Key)
    requires Sized(disk, cfg.slotCount, cfg.chunkSize) && slot < cfg.slotCount
  {
    var h := Parse(HeaderPage(disk, cfg.slotCount, cfg.chunkSize, slot), cfg.chunkSize);
    h.Ok? && h.value.key == key
  }

  /** A read that is made fails; one after the other, the body is read only for the header's key. */
  predicate ReadFails(cfg: Config, disk: Disk, slot: nat, key: Key, fault: ReadFault)
    requires Sized(disk, cfg.slotCount, cfg.chunkSize) && slot < cfg.slotCount
  {
    fault.header || (fault.body && (cfg.readShape.Overlap? || Names(cfg, disk, slot, key)))
  }

  /** What reading a slot for `key` gives. */
  function SlotRead(cfg: Config, disk: Disk, slot: nat, key: Key, fault: ReadFault): LruCache.Answer
    requires Sized(disk, cfg.slotCount, cfg.chunkSize) && slot < cfg.slotCount
  {
    if ReadFails(cfg, disk, slot, key, fault) then Err(LruCache.IoError) else Ok(SlotChunk(cfg, disk, slot, key))
  }

  // ----- one operation on the index and the disk together

  /** `get`: touch, read the slot, forget it if it does not hold the chunk; a failed read is
      reported and forgets nothing. */
  ghost function GetStep(cfg: Config, v: Lru, disk: Disk, key: Key, fault: ReadFault): (Lru, LruCache.Answer)
    requires Matches(cfg, v, disk)
  {
    var (w, got) := v.Touch(key);
    match got
    case None => (w, Ok(None))
    case Some(slot) =>
      var r := SlotRead(cfg, disk, slot, key, fault);
      (if r == Ok(None) then w.Forget(slot) else w, r)
  }

  lemma GetRefines(cfg: Config, v: Lru, disk: Disk, key: Key, fault: ReadFault)
    requires Matches(cfg, v, disk)
    ensures var (w, r) := GetStep(cfg, v, disk, key, fault);
            && (key in v.slotOf ==> v.slotOf[key] < cfg.slotCount)
            && Matches(cfg, w, disk)
            && (Contents(cfg, w, disk), r) == LruCache.Get(Contents(cfg, v, disk), key, r.Err?)
            && (r.Err? ==> key in v.slotOf && (fault.header || fault.body))
  {
    hide Contents, SlotChunk, Names;
    FindHeld(cfg, v, disk, key);
    if key in v.slotOf {
      TouchContents(cfg, v, disk, key);
      if SlotRead(cfg, disk, v.slotOf[key], key, fault) == Ok(None) {
        DroppedLast(cfg, v.Touch(key).0, disk, v.slotOf[key]);
      }
    }
  }

  /** Forgetting the most recently used slot drops the last entry. */
  lemma DroppedLast(cfg: Config, v: Lru, disk: Disk, slot: nat)
    requires Matches(cfg, v, disk)
    requires v.order != [] && slot == v.order[|v.order| - 1]
    ensures Matches(cfg, v.Forget(slot), disk)
    ensures Contents(cfg, v.Forget(slot), disk) == Contents(cfg, v, disk)[..|v.order| - 1]
  {
    assert slot in v.order;
    ForgetContents(cfg, v, disk, slot);
    ContentsDistinct(cfg, v, disk);
    var c, last := Contents(cfg, v, disk), |v.order| - 1;
    LruCache.DropAt(c, last);
    assert c[..last] + c[last + 1..] == c[..last];
  }

  /** `put`: claim a slot, write it, forget it if the header does not fit or the disk fails. */
  ghost function PutStep(cfg: Config, v: Lru, disk: Disk, key: Utf8, chunk: Chunk,
                         fault: Option<WriteFault>): (Lru, Disk, bool)
    requires cfg.Valid() && Matches(cfg, v, disk)
  {
    ClaimKeeps(v, cfg.slotCount, key);
    if |chunk.body| > cfg.chunkSize then (v, disk, false)
    else
      var (w, got) := v.Claim(key);
      match got
      case None => (w, disk, true)
      case Some(slot) =>
        if !Fits(Header(key, chunk)) then (w.Forget(slot), disk, false)
        else if fault.None? then (w, SlotWritten(cfg, disk, slot, key, chunk), true)
        else (w.Forget(slot), SlotTorn(cfg, disk, slot, chunk.body, fault.value), false)
  }

  lemma PutRefines(cfg: Config, v: Lru, disk: Disk, key: Utf8, chunk: Chunk, fault: Option<WriteFault>)
    requires cfg.Valid() && Matches(cfg, v, disk)
    ensures var (w, disk', ok) := PutStep(cfg, v, disk, key, chunk, fault);
            && (v.Claim(key).1.Some? ==> v.Claim(key).1.value < cfg.slotCount)
            && Matches(cfg, w, disk')
            && (Contents(cfg, w, disk'), ok) ==
               LruCache.Put(Contents(cfg, v, disk), cfg.slotCount, cfg.chunkSize, key, chunk, fault.Some?)
  {
    hide Lru.Valid, Contents, SlotChunk, SlotWritten, SlotTorn;
    FindHeld(cfg, v, disk, key);
    ClaimKeeps(v, cfg.slotCount, key);
    if |chunk.body| <= cfg.chunkSize && key !in v.slotOf {
      var slot := v.Claim(key).1.value;
      if !Fits(Header(key, chunk)) {
        PutFailsRefines(cfg, v, disk, disk, key, slot);
      } else if fault.None? {
        PutWritesRefines(cfg, v, disk, key, chunk, slot);
      } else {
        PutTornRefines(cfg, v, disk, key, chunk, fault.value, slot);
      }
    }
  }

  lemma PutTornRefines(cfg: Config, v: Lru, disk: Disk, key: Utf8, chunk: Chunk, fault: WriteFault, slot: nat)
    requires cfg.Valid() && Matches(cfg, v, disk)
    requires key !in v.slotOf && v.Claim(key).1 == Some(slot) && slot < cfg.slotCount
    requires |chunk.body| <= cfg.chunkSize
    ensures var disk' := SlotTorn(cfg, disk, slot, chunk.body, fault);
            && Matches(cfg, v.Claim(key).0.Forget(slot), disk')
            && Contents(cfg, v.Claim(key).0.Forget(slot), disk') == LruCache.Room(Contents(cfg, v, disk), cfg.slotCount)
  {
    hide Lru.Valid, Contents, SlotChunk, SlotTorn;
    var disk' := SlotTorn(cfg, disk, slot, chunk.body, fault);
    forall s, k | 0 <= s < cfg.slotCount && s != slot
      ensures SlotChunk(cfg, disk', s, k) == SlotChunk(cfg, disk, s, k)
    {
      TornElsewhere(cfg, disk, slot, chunk.body, fault, s, k);
    }
    PutFailsRefines(cfg, v, disk, disk', key, slot);
  }

  lemma PutWritesRefines(cfg: Config, v: Lru, disk: Disk, key: Utf8, chunk: Chunk, slot: nat)
    requires cfg.Valid() && Matches(cfg, v, disk)
    requires key !in v.slotOf && v.Claim(key).1 == Some(slot) && slot < cfg.slotCount
    requires |chunk.body| <= cfg.chunkSize && Fits(Header(key, chunk))
    ensures var disk' := SlotWritten(cfg, disk, slot, key, chunk);
            && Matches(cfg, v.Claim(key).0, disk')
            && Contents(cfg, v.Claim(key).0, disk') ==
               LruCache.Room(Contents(cfg, v, disk), cfg.slotCount) + [LruCache.Entry(key, LruCache.Stored(key, chunk))]
  {
    var disk' := SlotWritten(cfg, disk, slot, key, chunk);
    forall s, k | 0 <= s < cfg.slotCount && s != slot
      ensures SlotChunk(cfg, disk', s, k) == SlotChunk(cfg, disk, s, k)
    {
      SlotWrittenReads(cfg, disk, slot, key, chunk, s, k);
    }
    SlotWrittenReads(cfg, disk, slot, key, chunk, slot, key);
    ClaimContents(cfg, v, disk, disk', key, slot);
  }

  lemma PutFailsRefines(cfg: Config, v: Lru, disk: Disk, disk': Disk, key: Key, slot: nat)
    requires cfg.Valid() && Matches(cfg, v, disk)
    requires key !in v.slotOf && v.Claim(key).1 == Some(slot)
    requires Sized(disk', cfg.slotCount, cfg.chunkSize)
    requires forall s, k :: 0 <= s < cfg.slotCount && s != slot ==>
               SlotChunk(cfg, disk', s, k) == SlotChunk(cfg, disk, s, k)
    ensures Matches(cfg, v.Claim(key).0.Forget(slot), disk')
    ensures Contents(cfg, v.Claim(key).0.Forget(slot), disk') == LruCache.Room(Contents(cfg, v, disk), cfg.slotCount)
  {
    hide Lru.Valid, SlotChunk;
    ClaimContents(cfg, v, disk, disk', key, slot);
    ClaimShape(v, cfg.slotCount, key);
    DroppedLast(cfg, v.Claim(key).0, disk', slot);
  }

  lemma RemoveRefines(cfg: Config, v: Lru, disk: Disk, key: Key)
    requires Matches(cfg, v, disk)
    ensures var (w, held) := v.Remove(key);
            && Matches(cfg, w, disk)
            && (Contents(cfg, w, disk), held) == LruCache.Remove(Contents(cfg, v, disk), key)
  {
    hide Contents, SlotChunk;
    FindHeld(cfg, v, disk, key);
    if key in v.slotOf {
      ForgetContents(cfg, v, disk, v.slotOf[key]);
    } else {
      LruCache.DropAbsent(Contents(cfg, v, disk), key);
    }
  }

  // ----- the startup scan

  function HeaderOf(cfg: Config, disk: Disk, s: nat): Option<SlotHeader>
    requires Sized(disk, cfg.slotCount, cfg.chunkSize) && s < cfg.slotCount
  {
    match Parse(HeaderPage(disk, cfg.slotCount, cfg.chunkSize, s), cfg.chunkSize)
    case Ok(h) => Some(h)
    case Err(_) => None
  }

  /** Every slot's header, in slot order. */
  ghost function Headers(cfg: Config, disk: Disk): (hs: seq<Option<SlotHeader>>)
    requires Sized(disk, cfg.slotCount, cfg.chunkSize)
    ensures |hs| == cfg.slotCount
    ensures forall s :: 0 <= s < cfg.slotCount ==> hs[s] == HeaderOf(cfg, disk, s)
  {
    seq(cfg.slotCount, s requires 0 <= s < cfg.slotCount => HeaderOf(cfg, disk, s))
  }

  /** What visiting the slots in order builds. */
  function Scanned(hs: seq<Option<SlotHeader>>): Lru {
    if hs == [] then EmptyLru
    else
      var s := |hs| - 1;
      var v := Scanned(hs[..s]);
      match hs[s]
      case Some(h) => v.Occupy(s, h.key)
      case None => v.(free := v.free + [s])
  }

  ghost predicate DistinctHeaders(hs: seq<Option<SlotHeader>>) {
    forall i, j :: 0 <= i < j < |hs| && hs[i].Some? && hs[j].Some? ==> hs[i].value.key != hs[j].value.key
  }

  ghost predicate Ascending(s: seq<nat>) {
    forall i, j :: 0 <= i < j < |s| ==> s[i] < s[j]
  }

  /** The scan holds exactly the slots whose header parses, in slot order, and frees the rest. */
  lemma {:induction false} ScannedShape(hs: seq<Option<SlotHeader>>)
    ensures var v := Scanned(hs);
            && Ascending(v.order) && Ascending(v.free)
            && (forall s :: s in v.order <==> 0 <= s < |hs| && hs[s].Some?)
            && (forall s :: s in v.free <==> 0 <= s < |hs| && hs[s].None?)
            && (forall s :: s in v.keyOf <==> s in v.order)
            && (forall s :: s in v.keyOf ==> v.keyOf[s] == hs[s].value.key)
  {
    if hs != [] {
      var last := |hs| - 1;
      var front := hs[..last];
      ScannedShape(front);
      var u, v := Scanned(front), Scanned(hs);
      AscendingAppend(u.order, last);
      AscendingAppend(u.free, last);
      forall s
        ensures s in v.order <==> 0 <= s < |hs| && hs[s].Some?
        ensures s in v.free <==> 0 <= s < |hs| && hs[s].None?
        ensures s in v.keyOf <==> s in v.order
        ensures s in v.keyOf ==> v.keyOf[s] == hs[s].value.key
      {
        assert 0 <= s < last ==> front[s] == hs[s];
      }
    }
  }

  lemma AscendingAppend(s: seq<nat>, x: nat)
    requires Ascending(s) && forall y :: y in s ==> y < x
    ensures Ascending(s + [x])
    ensures forall y :: y in s + [x] <==> y in s || y == x
  {
    assert forall i :: 0 <= i < |s| ==> s[i] in s;
  }

  /** A scan that finds no header holds nothing. */
  lemma {:induction false} ScannedEmpty(hs: seq<Option<SlotHeader>>)
    requires forall s :: 0 <= s < |hs| ==> hs[s].None?
    ensures Scanned(hs).order == [] && Scanned(hs).slotOf == map[] && Scanned(hs).keyOf == map[]
  {
    if hs != [] {
      ScannedEmpty(hs[..|hs| - 1]);
    }
  }

  /** Whatever the headers say, the map names for each key the last slot that claims it. */
  lemma {:induction false} ScannedMap(hs: seq<Option<SlotHeader>>)
    ensures var v := Scanned(hs);
            && (forall k :: k in v.slotOf ==>
                  v.slotOf[k] < |hs| && hs[v.slotOf[k]].Some? && hs[v.slotOf[k]].value.key == k)
            && (forall s :: 0 <= s < |hs| && hs[s].Some? ==>
                  hs[s].value.key in v.slotOf && s <= v.slotOf[hs[s].value.key])
  {
    if hs != [] {
      ScannedMap(hs[..|hs| - 1]);
    }
  }

  lemma ScannedParts(hs: seq<Option<SlotHeader>>)
    requires DistinctHeaders(hs)
    ensures Scanned(hs).Parts(|hs|)
  {
    var v := Scanned(hs);
    ScannedShape(hs);
    ScannedMap(hs);
    forall k | k in v.slotOf
      ensures v.slotOf[k] in v.keyOf && v.keyOf[v.slotOf[k]] == k
    {
      assert v.slotOf[k] in v.order;
    }
    forall s | s in v.keyOf
      ensures v.keyOf[s] in v.slotOf && v.slotOf[v.keyOf[s]] == s
    {
      assert s in v.order;
      var t := v.slotOf[hs[s].value.key];
      assert s <= t && hs[t].value.key == hs[s].value.key;
    }
  }

  /** A scan establishes the index invariant exactly when no two headers name the same key. */
  lemma ScannedValidIff(hs: seq<Option<SlotHeader>>)
    ensures Scanned(hs).Valid(|hs|) <==> DistinctHeaders(hs)
  {
    var v := Scanned(hs);
    ScannedShape(hs);
    if DistinctHeaders(hs) {
      ScannedParts(hs);
    } else {
      var i, j :| 0 <= i < j < |hs| && hs[i].Some? && hs[j].Some? && hs[i].value.key == hs[j].value.key;
      assert i in v.order && j in v.order;
    }
  }

  lemma TakeOneMore(hs: seq<Option<SlotHeader>>, i: nat)
    requires i < |hs|
    ensures hs[..i] + [hs[i]] == hs[..i + 1]
  {
  }

  /** Take one scanned slot into the index: its header's key, or the free stack. */
  method Recover(index: Index, slot: nat, h: Option<SlotHeader>, ghost seen: seq<Option<SlotHeader>>)
    requires slot == |seen| < index.slots.Length
    requires index.Linked() && index.lru == Scanned(seen)
    modifies index, index.slots
    ensures index.Linked() && index.lru == Scanned(seen + [h])
  {
    ScannedShape(seen);
    assert (seen + [h])[..slot] == seen;
    match h {
      case Some(h) =>
        index.Occupy(slot, h.key, h.bodyLen, h.bodyCrc);
      case None =>
        index.free := index.free + [slot];
        index.lru := index.lru.(free := index.lru.free + [slot]);
    }
  }

  method RecoverExtent(index: Index, first: nat, found: seq<Option<SlotHeader>>, ghost all: seq<Option<SlotHeader>>)
    requires |all| == index.slots.Length && first + |found| <= |all|
    requires forall w :: 0 <= w < |found| ==> found[w] == all[first + w]
    requires index.Linked() && index.lru == Scanned(all[..first])
    modifies index, index.slots
    ensures index.Linked() && index.lru == Scanned(all[..first + |found|])
  {
    hide Index.Linked, Scanned;
    for within := 0 to |found|
      invariant index.Linked() && index.lru == Scanned(all[..first + within])
    {
      Recover(index, first + within, found[within], all[..first + within]);
      TakeOneMore(all, first + within);
    }
  }

  lemma ParsedLength(page: seq<Byte>, capacity: nat)
    requires |page| == SLOT_HEADER_BYTES && Parse(page, capacity).Ok?
    ensures Parse(page, capacity).value.bodyLen <= capacity
  {
  }

  // ----- the store

  class ChunkStore {
    const cfg: Config
    const index: Index
    var extents: Disk

    ghost predicate DiskReady()
      reads this
    {
      cfg.Valid() && Sized(extents, cfg.slotCount, cfg.chunkSize)
    }

    ghost predicate Valid()
      reads this, index, index.slots
    {
      DiskReady() && index.Valid() && index.slots.Length == cfg.slotCount
    }

    /** Open a store over an existing disk image, rebuilding the index from the slot headers. */
    constructor Open(cfg: Config, disk: Disk)
      requires cfg.Valid() && Sized(disk, cfg.slotCount, cfg.chunkSize)
      ensures this.cfg == cfg && extents == disk && fresh(index) && fresh(index.slots)
      ensures index.lru == Scanned(Headers(cfg, disk))
      ensures Valid() <==> DistinctHeaders(Headers(cfg, disk))
    {
      this.cfg := cfg;
      index := new Index(cfg.slotCount);
      extents := disk;
      new;
      Scan();
      ScannedValidIff(Headers(cfg, disk));
    }

    /** Rebuild the index by reading every extent's header region, in slot order. */
    method Scan()
      requires DiskReady()
      requires index.slots.Length == cfg.slotCount && index.Linked() && index.lru == EmptyLru
      modifies index, index.slots
      ensures index.Linked() && index.lru == Scanned(Headers(cfg, extents))
    {
      hide HeaderOf, Index.Linked, Lru.Valid, SlotsInExtent;
      var n := cfg.slotCount;
      ghost var all := Headers(cfg, extents);
      for e := 0 to |extents|
        invariant index.Linked() && index.lru == Scanned(all[..FirstSlot(n, e)])
      {
        NextExtent(n, e);
        var found := ScanExtent(e, SlotsInExtent(n, e));
        RecoverExtent(index, e * SLOTS_PER_EXTENT, found, all);
      }
      ExtentsCover(n);
      assert all[..n] == all;
    }

    /** Parse the first `count` entries of extent `e`'s header region. */
    method ScanExtent(e: nat, count: nat) returns (headers: seq<Option<SlotHeader>>)
      requires DiskReady()
      requires e < |extents| && count == SlotsInExtent(cfg.slotCount, e)
      ensures |headers| == count
      ensures forall w :: 0 <= w < count ==> headers[w] == HeaderOf(cfg, extents, e * SLOTS_PER_EXTENT + w)
    {
      hide Parse, HeaderPage;
      var region := ReadAt(extents[e], 0, HEADER_REGION_BYTES);
      headers := [];
      for within := 0 to count
        invariant |headers| == within
        invariant forall w :: 0 <= w < within ==> headers[w] == HeaderOf(cfg, extents, e * SLOTS_PER_EXTENT + w)
      {
        var at := within * SLOT_HEADER_BYTES;
        RegionEntry(extents, cfg.slotCount, cfg.chunkSize, e, within);
        var entry := region[at..at + SLOT_HEADER_BYTES];
        match Parse(entry, cfg.chunkSize) {
          case Ok(h) => headers := headers + [Some(h)];
          case Err(_) => headers := headers + [None];
        }
      }
    }

    /** What the store holds. */
    ghost function Cache(): LruCache.Cache
      reads this, index, index.slots
      requires Valid()
    {
      Contents(cfg, index.lru, extents)
    }

    /** One slot's header, or `None` when the slot is free or corrupt. */
    method ReadHeader(slot: nat, fails: bool) returns (h: Result<Option<SlotHeader>, LruCache.IoError>)
      requires DiskReady() && slot < cfg.slotCount
      ensures h.Err? <==> fails
      ensures var parsed := Parse(HeaderPage(extents, cfg.slotCount, cfg.chunkSize, slot), cfg.chunkSize);
              h.Ok? ==> h.value == if parsed.Ok? then Some(parsed.value) else None
    {
      if fails {
        return Err(LruCache.IoError);
      }
      SlotInBounds(extents, cfg.slotCount, cfg.chunkSize, slot);
      var page := ReadAt(extents[ExtentOf(slot)], HeaderOffset(Within(slot)), SLOT_HEADER_BYTES);
      match Parse(page, cfg.chunkSize) {
        case Ok(header) => h := Ok(Some(header));
        case Err(_) => h := Ok(None);
      }
    }

    /** The front of a slot's body: a page-aligned direct read that stays inside the slot. */
    method ReadBody(slot: nat, readLen: nat, fails: bool) returns (body: Result<seq<Byte>, LruCache.IoError>)
      requires DiskReady() && slot < cfg.slotCount
      requires readLen <= cfg.chunkSize && readLen % DIRECT_IO_ALIGN == 0
      ensures body.Err? <==> fails
      ensures body.Ok? ==> body.value == BodyArea(extents, cfg.slotCount, cfg.chunkSize, slot)[..readLen]
    {
      if fails {
        return Err(LruCache.IoError);
      }
      SlotInBounds(extents, cfg.slotCount, cfg.chunkSize, slot);
      body := Ok(ReadAt(extents[ExtentOf(slot)], BodyOffset(Within(slot), cfg.chunkSize), readLen));
    }

    /** The body length to read for `key`, or `None` when this slot is not `key`'s. */
    method Accept(key: Key, h: SlotHeader) returns (len: Option<nat>)
      ensures len == if h.key == key then Some(h.bodyLen) else None
    {
      if h.key != key {
        return None;
      }
      return Some(h.bodyLen);
    }

    /** `body` trimmed to `len` and checked, or `None` when it fails its checksum. */
    method Verified(h: SlotHeader, body: seq<Byte>, len: nat) returns (chunk: Option<Chunk>)
      requires len <= |body|
      ensures chunk == if cfg.verifyBody && BodyCrc(body[..len]) != h.bodyCrc then None
                       else Some(LruCache.Chunk(body[..len], h.eTag))
    {
      var trimmed := body[..len];
      if cfg.verifyBody && BodyCrc(trimmed) != h.bodyCrc {
        return None;
      }
      return Some(LruCache.Chunk(trimmed, h.eTag));
    }

    /** Header, key check, then one rounded body read. */
    method ReadSlot(key: Key, slot: nat, fault: ReadFault) returns (r: LruCache.Answer)
      requires DiskReady() && slot < cfg.slotCount && cfg.readShape.TwoRead?
      ensures r == SlotRead(cfg, extents, slot, key, fault)
    {
      hide BodyCrc, Parse, HeaderPage, BodyArea;
      var header := ReadHeader(slot, fault.header);
      if header.Err? {
        return Err(LruCache.IoError);
      }
      if header.value.None? {
        return Ok(None);
      }
      var len := Accept(key, header.value.value);
      if len.None? {
        return Ok(None);
      }
      ParsedLength(HeaderPage(extents, cfg.slotCount, cfg.chunkSize, slot), cfg.chunkSize);
      var rounded := AlignUp(len.value);
      var readLen := if rounded <= cfg.chunkSize then rounded else cfg.chunkSize;
      var body := ReadBody(slot, readLen, fault.body);
      if body.Err? {
        return Err(LruCache.IoError);
      }
      ghost var area := BodyArea(extents, cfg.slotCount, cfg.chunkSize, slot);
      SliceOfSlice(area, 0, readLen, 0, len.value);
      var chunk := Verified(header.value.value, body.value, len.value);
      r := Ok(chunk);
    }

    /** Both reads at once, the body at full size, then the same checks. */
    method ReadOverlapped(key: Key, slot: nat, fault: ReadFault) returns (r: LruCache.Answer)
      requires DiskReady() && slot < cfg.slotCount && cfg.readShape.Overlap?
      ensures r == SlotRead(cfg, extents, slot, key, fault)
    {
      var header := ReadHeader(slot, fault.header);
      var body := ReadBody(slot, cfg.chunkSize, fault.body);
      if header.Err? {
        return Err(LruCache.IoError);
      }
      if body.Err? {
        return Err(LruCache.IoError);
      }
      assert body.value == BodyArea(extents, cfg.slotCount, cfg.chunkSize, slot);
      if header.value.None? {
        return Ok(None);
      }
      var len := Accept(key, header.value.value);
      if len.None? {
        return Ok(None);
      }
      var chunk := Verified(header.value.value, body.value, len.value);
      r := Ok(chunk);
    }

    method Read(key: Key, slot: nat, fault: ReadFault) returns (r: LruCache.Answer)
      requires DiskReady() && slot < cfg.slotCount
      ensures r == SlotRead(cfg, extents, slot, key, fault)
    {
      match cfg.readShape {
        case TwoRead => r := ReadSlot(key, slot, fault);
        case Overlap => r := ReadOverlapped(key, slot, fault);
      }
    }

    /** Read `key`'s chunk; a slot that turns out not to hold it is dropped, one that could not be
        read is kept. */
    method Get(key: Key, fault: ReadFault) returns (r: LruCache.Answer)
      requires Valid()
      modifies index, index.slots
      ensures Valid()
      ensures (Cache(), r) == LruCache.Get(old(Cache()), key, r.Err?)
      ensures (index.lru, r) == GetStep(cfg, old(index.lru), extents, key, fault)
    {
      hide Lru.Valid, Index.Valid, Contents, SlotChunk, Names;
      GetRefines(cfg, index.lru, extents, key, fault);
      var touched := index.Touch(key);
      if touched.None? {
        return Ok(None);
      }
      var slot := touched.value;
      r := Read(key, slot, fault);
      if r == Ok(None) {
        index.Forget(slot);
      }
    }

    /** Write the body, sync it, and write the header page that names it; a header that does not fit
        fails before anything is written. */
    method WriteSlot(slot: nat, key: Utf8, chunk: Chunk, h: SlotHeader, fault: Option<WriteFault>) returns (ok: bool)
      requires DiskReady() && slot < cfg.slotCount
      requires |chunk.body| <= cfg.chunkSize && h == Header(key, chunk)
      modifies this`extents
      ensures DiskReady()
      ensures ok == (Fits(h) && fault.None?)
      ensures extents == if ok then SlotWritten(cfg, old(extents), slot, key, chunk)
                         else if Fits(h) then SlotTorn(cfg, old(extents), slot, chunk.body, fault.value)
                         else old(extents)
    {
      var page := new Byte[SLOT_HEADER_BYTES];
      ok := WriteTo(h, page);
      if !ok {
        return;
      }
      SlotInBounds(extents, cfg.slotCount, cfg.chunkSize, slot);
      var e, bodyAt, headerAt := ExtentOf(slot), BodyOffset(Within(slot), cfg.chunkSize), HeaderOffset(Within(slot));
      if fault.Some? && fault.value.BodyFails? {
        if |fault.value.left| <= cfg.chunkSize {
          extents := extents[e := WriteAt(extents[e], bodyAt, fault.value.left)];
        }
        return false;
      }
      extents := extents[e := WriteAt(extents[e], bodyAt, chunk.body)];
      if fault.Some? && fault.value.SyncFails? {
        return false;
      }
      if fault.Some? {
        if |fault.value.left| == SLOT_HEADER_BYTES {
          extents := extents[e := WriteAt(extents[e], headerAt, fault.value.left)];
        }
        return false;
      }
      extents := extents[e := WriteAt(extents[e], headerAt, page[..])];
    }

    /** Write `chunk` under `key`, evicting the least recently used chunk if every slot is taken. */
    method Put(key: Utf8, chunk: Chunk, fault: Option<WriteFault>) returns (ok: bool)
      requires Valid()
      modifies this`extents, index, index.slots
      ensures Valid()
      ensures (Cache(), ok) == LruCache.Put(old(Cache()), cfg.slotCount, cfg.chunkSize, key, chunk, fault.Some?)
      ensures (index.lru, extents, ok) == PutStep(cfg, old(index.lru), old(extents), key, chunk, fault)
    {
      hide Lru.Valid, Index.Valid, Contents, SlotChunk, SlotWritten, SlotTorn;
      PutRefines(cfg, index.lru, extents, key, chunk, fault);
      if |chunk.body| > cfg.chunkSize {
        return false;
      }
      var h := Header(key, chunk);
      var claimed := index.Claim(key, h.bodyLen, h.bodyCrc);
      if claimed.None? {
        return true;
      }
      var slot := claimed.value;
      ok := WriteSlot(slot, key, chunk, h, fault);
      if !ok {
        index.Forget(slot);
      }
    }

    /** Drop `key` from the store, freeing its slot; nothing is erased on disk. */
    method Remove(key: Key) returns (held: bool)
      requires Valid()
      modifies index, index.slots
      ensures Valid()
      ensures (Cache(), held) == LruCache.Remove(old(Cache()), key)
      ensures (index.lru, held) == old(index.lru).Remove(key)
    {
      hide Lru.Valid, Index.Valid, Contents;
      RemoveRefines(cfg, index.lru, extents, key);
      held := index.Remove(key);
    }
  }
}
