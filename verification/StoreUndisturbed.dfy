/**
 Operations of the interleaved store that nothing comes between: each is the sequential store's
 operation, so the interleaved store does serve, and drop, what it should.
 */
module StoreUndisturbed {
  import opened Common
  import opened Bytes
  import opened Crc
  import opened SlotHeaders
  import opened Layout
  import opened LruIndex
  import LruCache
  import opened ChunkStores
  import opened StoreInterleaving

  // ----- pages and areas as a disk

  /** The slots below `k` of `disk` hold these pages and areas. */
  ghost predicate Holds(disk: Disk, n: nat, size: nat, pages: seq<seq<Byte>>, areas: seq<seq<Byte>>, k: nat) {
    && Sized(disk, n, size) && |pages| == |areas| == n && k <= n
    && (forall s :: 0 <= s < k ==> HeaderPage(disk, n, size, s) == pages[s] && BodyArea(disk, n, size, s) == areas[s])
  }

  /** `disk` holds the state's pages and areas. */
  ghost predicate Mirrors(cfg: Config, st: State, disk: Disk) {
    Holds(disk, cfg.slotCount, cfg.chunkSize, st.pages, st.areas, cfg.slotCount)
  }

  ghost function BlankDisk(n: nat, size: nat): (disk: Disk)
    ensures Sized(disk, n, size)
  {
    seq(ExtentCount(n), e requires 0 <= e < ExtentCount(n) => Zeros(HEADER_REGION_BYTES + SlotsInExtent(n, e) * size))
  }

  /** Writing one slot's page and whole area puts them there and nowhere else. */
  lemma SlotFilled(disk: Disk, n: nat, size: nat, slot: nat, page: seq<Byte>, area: seq<Byte>, s: nat)
    requires Sized(disk, n, size) && slot < n && s < n && |page| == SLOT_HEADER_BYTES && |area| == size
    ensures var r := PutHeader(PutBody(disk, n, size, slot, area), n, size, slot, page);
            && HeaderPage(r, n, size, s) == (if s == slot then page else HeaderPage(disk, n, size, s))
            && BodyArea(r, n, size, s) == if s == slot then area else BodyArea(disk, n, size, s)
  {
    hide PutHeader, PutBody, HeaderPage, BodyArea;
    PutBodyFrame(disk, n, size, slot, area, s);
    PutHeaderFrame(PutBody(disk, n, size, slot, area), n, size, slot, page, s);
    assert area + BodyArea(disk, n, size, s)[size..] == area;
  }

  lemma {:induction false} DiskOf(n: nat, size: nat, pages: seq<seq<Byte>>, areas: seq<seq<Byte>>, k: nat)
    returns (disk: Disk)
    requires |pages| == |areas| == n && k <= n
    requires forall s :: 0 <= s < n ==> |pages[s]| == SLOT_HEADER_BYTES && |areas[s]| == size
    ensures Holds(disk, n, size, pages, areas, k)
  {
    hide PutHeader, PutBody, HeaderPage, BodyArea, Sized;
    if k == 0 {
      disk := BlankDisk(n, size);
    } else {
      var before := DiskOf(n, size, pages, areas, k - 1);
      disk := PutHeader(PutBody(before, n, size, k - 1, areas[k - 1]), n, size, k - 1, pages[k - 1]);
      forall s | 0 <= s < k
        ensures HeaderPage(disk, n, size, s) == pages[s] && BodyArea(disk, n, size, s) == areas[s]
      {
        SlotFilled(before, n, size, k - 1, pages[k - 1], areas[k - 1], s);
      }
    }
  }

  /** Every state the store can be in is the state of some disk. */
  lemma SomeDisk(cfg: Config, st: State) returns (disk: Disk)
    requires Inv(cfg, st)
    ensures Mirrors(cfg, st, disk)
  {
    disk := DiskOf(cfg.slotCount, cfg.chunkSize, st.pages, st.areas, cfg.slotCount);
  }

  // ----- a get that nothing comes between

  ghost function GetAlone(cfg: Config, st: State, id: nat, key: Key): State {
    Apply(cfg, Apply(cfg, Apply(cfg, Apply(cfg, st, BeginGet(id, key)), ReadHeader(id)), ReadBody(id)), FinishGet(id))
  }

  lemma MissAlone(cfg: Config, st: State, id: nat, key: Key)
    requires id !in st.gets && key !in st.lru.slotOf
    ensures GetAlone(cfg, st, id, key) == st
  {
  }

  lemma BegunGet(cfg: Config, st: State, id: nat, key: Key)
    requires id !in st.gets && key in st.lru.slotOf
    ensures Apply(cfg, st, BeginGet(id, key)) ==
            st.(lru := st.lru.Touch(key).0, gets := st.gets[id := Getting(key, st.lru.slotOf[key], None, None)])
  {
  }

  lemma HeaderRead(cfg: Config, st: State, gets: map<nat, Getting>, id: nat, g: Getting)
    requires st.gets == gets[id := g] && g.header.None? && g.slot < |st.pages|
    requires |st.pages[g.slot]| == SLOT_HEADER_BYTES
    ensures Apply(cfg, st, ReadHeader(id)) ==
            st.(gets := gets[id := g.(header := Some(Parsed(cfg, st.pages[g.slot])))])
  {
    hide Parsed;
    var h := Some(Parsed(cfg, st.pages[g.slot]));
    assert st.gets[id := g.(header := h)] == gets[id := g.(header := h)];
  }

  /** A get after it has read what its header lets it read of the slot's area. */
  ghost function WithBody(cfg: Config, g: Getting, area: seq<Byte>): Getting {
    var n := ReadLength(cfg, g);
    if n.Some? && n.value <= |area| then g.(body := Some(area[..n.value])) else g
  }

  lemma BodyRead(cfg: Config, st: State, gets: map<nat, Getting>, id: nat, g: Getting)
    requires st.gets == gets[id := g] && g.body.None? && g.slot < |st.areas|
    ensures Apply(cfg, st, ReadBody(id)) == st.(gets := gets[id := WithBody(cfg, g, st.areas[g.slot])])
  {
    hide ReadLength;
    var after := WithBody(cfg, g, st.areas[g.slot]);
    assert st.gets[id := after] == gets[id := after];
  }

  /** An accepted header's body is read to its end. */
  lemma BodyReaches(cfg: Config, g: Getting, area: seq<Byte>, h: SlotHeader)
    requires g.header == Some(Some(h)) && h.key == g.key && h.bodyLen <= cfg.chunkSize == |area|
    ensures var body := WithBody(cfg, g, area).body;
            && body.Some? && h.bodyLen <= |body.value| && body.value[..h.bodyLen] == area[..h.bodyLen]
  {
    hide AlignUp;
    var n := ReadLength(cfg, g).value;
    SliceOfSlice(area, 0, n, 0, h.bodyLen);
  }

  /** What a get has read before it finishes. */
  ghost function ReadAlone(cfg: Config, st: State, key: Key, slot: nat): Getting
    requires slot < |st.pages| == |st.areas| && |st.pages[slot]| == SLOT_HEADER_BYTES
  {
    WithBody(cfg, Getting(key, slot, Some(Parsed(cfg, st.pages[slot])), None), st.areas[slot])
  }

  lemma ReadsAlone(cfg: Config, st: State, id: nat, key: Key)
    requires Image(cfg, st.pages, st.areas) && id !in st.gets
    requires key in st.lru.slotOf && st.lru.slotOf[key] < cfg.slotCount
    ensures GetAlone(cfg, st, id, key) ==
            var g := ReadAlone(cfg, st, key, st.lru.slotOf[key]);
            ApplyFinishGet(cfg, st.(lru := st.lru.Touch(key).0, gets := st.gets[id := g]), id)
  {
    var slot := st.lru.slotOf[key];
    hide Lru.Touch, Parsed, WithBody, ApplyFinishGet, ApplyBeginGet, ApplyReadHeader, ApplyReadBody;
    var g := Getting(key, slot, None, None);
    BegunGet(cfg, st, id, key);
    var s1 := Apply(cfg, st, BeginGet(id, key));
    HeaderRead(cfg, s1, st.gets, id, g);
    BodyRead(cfg, Apply(cfg, s1, ReadHeader(id)), st.gets, id, g.(header := Some(Parsed(cfg, st.pages[slot]))));
  }

  lemma HeldSlot(cfg: Config, st: State, key: Key)
    requires Inv(cfg, st) && key in st.lru.slotOf
    ensures st.lru.slotOf[key] < cfg.slotCount && st.lru.slotOf[key] in st.lru.keyOf
  {
  }

  lemma TouchHeld(v: Lru, key: Key)
    requires key in v.slotOf
    ensures v.Touch(key).1 == Some(v.slotOf[key])
  {
  }

  /** A get that nothing comes between, in either read shape: a held key is moved to the back; if its
      page names the key and its body passes the check that is asked for, exactly that body and tag
      are served and the key stays; otherwise nothing is served and the slot is freed. */
  lemma HeldGetAlone(cfg: Config, st: State, id: nat, key: Key)
    requires cfg.Valid() && Inv(cfg, st) && id !in st.gets && key in st.lru.slotOf
    ensures var slot := st.lru.slotOf[key];
            && slot < cfg.slotCount && |st.pages| == |st.areas| == cfg.slotCount
            && |st.pages[slot]| == SLOT_HEADER_BYTES && |st.areas[slot]| == cfg.chunkSize
            && var touched, after := st.lru.Touch(key).0, GetAlone(cfg, st, id, key);
               match ReadPage(cfg, st.pages[slot], st.areas[slot], key)
               case Some(chunk) =>
                 after == st.(lru := touched, checked := after.checked, served := st.served + {Pair(key, chunk)})
               case None =>
                 after == st.(lru := touched.Forget(slot), checked := after.checked)
  {
    HeldSlot(cfg, st, key);
    assert Image(cfg, st.pages, st.areas);
    ReadsAlone(cfg, st, id, key);
    var slot := st.lru.slotOf[key];
    var page := Parse(st.pages[slot], cfg.chunkSize);
    var g := ReadAlone(cfg, st, key, slot);
    if page.Ok? && page.value.key == key {
      ParsedLength(st.pages[slot], cfg.chunkSize);
      BodyReaches(cfg, g.(body := None), st.areas[slot], page.value);
    }
    hide Inv, Lru.Touch, Lru.Forget, BodyCrc, Parse, ReadLength, GetAlone;
    FinishedAlone(cfg, st.(lru := st.lru.Touch(key).0), id, g);
  }

  /** Finishing a get takes it out of flight and does the rest as its header and body say. */
  lemma FinishedAlone(cfg: Config, st: State, id: nat, g: Getting)
    requires id !in st.gets && g.header.Some?
    requires var h := g.header.value;
             h.Some? && h.value.key == g.key ==> g.body.Some? && h.value.bodyLen <= |g.body.value|
    ensures var after := ApplyFinishGet(cfg, st.(gets := st.gets[id := g]), id);
            match g.header.value
            case None => after == st.(lru := st.lru.Forget(g.slot))
            case Some(h) =>
              if h.key != g.key then after == st.(lru := st.lru.Forget(g.slot))
              else
                var body := g.body.value[..h.bodyLen];
                if cfg.verifyBody && BodyCrc(body) != h.bodyCrc
                then after == st.(lru := st.lru.Forget(g.slot), checked := after.checked)
                else after == st.(checked := after.checked,
                                  served := st.served + {Pair(g.key, LruCache.Chunk(body, h.eTag))})
  {
    hide Lru.Forget, BodyCrc;
    assert st.gets[id := g] - {id} == st.gets;
  }

  /** So it is the sequential store's get, and the reference cache's. */
  lemma GetAloneRefines(cfg: Config, st: State, disk: Disk, id: nat, key: Key)
    requires cfg.Valid() && Inv(cfg, st) && id !in st.gets && Mirrors(cfg, st, disk)
    ensures Matches(cfg, st.lru, disk)
    ensures var after := GetAlone(cfg, st, id, key);
            var (w, r) := GetStep(cfg, st.lru, disk, key, ReadFault(false, false));
            && after.lru == w && Mirrors(cfg, after, disk) && Matches(cfg, after.lru, disk)
            && after.served == st.served + (if r.Ok? && r.value.Some? then {Pair(key, r.value.value)} else {})
            && (Contents(cfg, after.lru, disk), r) == LruCache.Get(Contents(cfg, st.lru, disk), key, false)
  {
    GetRefines(cfg, st.lru, disk, key, ReadFault(false, false));
    hide Lru.Valid, Contents, LruCache.Get, HeaderPage, BodyArea, ReadPage, Lru.Touch;
    if key in st.lru.slotOf {
      HeldSlot(cfg, st, key);
      HeldGetAlone(cfg, st, id, key);
      TouchHeld(st.lru, key);
    } else {
      MissAlone(cfg, st, id, key);
      TouchMissing(st.lru, key);
    }
  }

  lemma TouchMissing(v: Lru, key: Key)
    requires key !in v.slotOf
    ensures v.Touch(key) == (v, None)
  {
  }

  // ----- a put that nothing comes between

  /** Claim, body, header; a key or tag the header has no room for is found out before any write. */
  ghost function PutAlone(cfg: Config, st: State, id: nat, key: Utf8, chunk: Chunk): State {
    var begun := Apply(cfg, st, BeginPut(id, key, chunk));
    if LruCache.Nameable(key, chunk.eTag) then Apply(cfg, Apply(cfg, begun, SyncBody(id)), WriteHeader(id))
    else Apply(cfg, begun, FailPut(id))
  }

  lemma PutWritesAlone(cfg: Config, st: State, id: nat, key: Utf8, chunk: Chunk, slot: nat)
    requires cfg.Valid() && Inv(cfg, st) && id !in st.puts && |chunk.body| <= cfg.chunkSize
    requires key !in st.lru.slotOf && st.lru.Claim(key).1 == Some(slot) && slot < cfg.slotCount
    requires LruCache.Nameable(key, chunk.eTag)
    ensures Fits(Header(key, chunk)) && |st.pages| == |st.areas| == cfg.slotCount && |st.areas[slot]| == cfg.chunkSize
    ensures var after := PutAlone(cfg, st, id, key, chunk);
            after == st.(lru := st.lru.Claim(key).0, given := st.given + {Pair(key, chunk)}, written := after.written,
                         pages := st.pages[slot := Page(Header(key, chunk))],
                         areas := st.areas[slot := chunk.body + st.areas[slot][|chunk.body|..]])
  {
    assert Image(cfg, st.pages, st.areas);
    hide Inv, Page, BodyCrc, Lru.Claim, ApplyBeginPut, ApplySyncBody, ApplyWriteHeader;
    var p := Putting(key, chunk, slot, false);
    BegunPut(cfg, st, id, key, chunk, slot);
    var s1 := Apply(cfg, st, BeginPut(id, key, chunk));
    BodySynced(cfg, s1, st.puts, id, p);
    HeaderWritten(cfg, Apply(cfg, s1, SyncBody(id)), st.puts, id, p.(synced := true));
  }

  lemma BegunPut(cfg: Config, st: State, id: nat, key: Utf8, chunk: Chunk, slot: nat)
    requires id !in st.puts && |chunk.body| <= cfg.chunkSize && st.lru.Claim(key).1 == Some(slot)
    ensures Apply(cfg, st, BeginPut(id, key, chunk)) ==
            st.(lru := st.lru.Claim(key).0, puts := st.puts[id := Putting(key, chunk, slot, false)],
                given := st.given + {Pair(key, chunk)})
  {
    hide Lru.Claim;
  }

  lemma BodySynced(cfg: Config, st: State, puts: map<nat, Putting>, id: nat, p: Putting)
    requires st.puts == puts[id := p] && p.slot < |st.areas| && |p.chunk.body| <= |st.areas[p.slot]|
    ensures Apply(cfg, st, SyncBody(id)) ==
            st.(areas := st.areas[p.slot := p.chunk.body + st.areas[p.slot][|p.chunk.body|..]],
                puts := puts[id := p.(synced := true)])
  {
    assert st.puts[id := p.(synced := true)] == puts[id := p.(synced := true)];
  }

  lemma HeaderWritten(cfg: Config, st: State, puts: map<nat, Putting>, id: nat, p: Putting)
    requires id !in puts && st.puts == puts[id := p] && p.synced && p.slot < |st.pages|
    requires |p.chunk.body| < 0x1_0000_0000 && Fits(Header(p.key, p.chunk))
    ensures var page := Page(Header(p.key, p.chunk));
            Apply(cfg, st, WriteHeader(id)) ==
            st.(pages := st.pages[p.slot := page], written := st.written + {(p.slot, page)}, puts := puts)
  {
    hide Page, BodyCrc;
    assert st.puts - {id} == puts;
  }

  lemma PutFailsAlone(cfg: Config, st: State, id: nat, key: Utf8, chunk: Chunk, slot: nat)
    requires id !in st.puts && |chunk.body| <= cfg.chunkSize
    requires key !in st.lru.slotOf && st.lru.Claim(key).1 == Some(slot)
    requires !LruCache.Nameable(key, chunk.eTag)
    ensures var after := PutAlone(cfg, st, id, key, chunk);
            after == st.(lru := st.lru.Claim(key).0.Forget(slot), given := st.given + {Pair(key, chunk)})
  {
    hide Lru.Claim, Lru.Forget;
    var s1 := Apply(cfg, st, BeginPut(id, key, chunk));
    assert s1.puts - {id} == st.puts;
  }

  lemma PutNothingAlone(cfg: Config, st: State, id: nat, key: Utf8, chunk: Chunk)
    requires id !in st.puts && (|chunk.body| > cfg.chunkSize || st.lru.Claim(key) == (st.lru, None))
    ensures PutAlone(cfg, st, id, key, chunk) == st
  {
    hide Lru.Claim, Header;
  }

  /** A written slot mirrors a written slot. */
  lemma WrittenMirrors(cfg: Config, st: State, after: State, disk: Disk, slot: nat, key: Utf8, chunk: Chunk)
    requires cfg.Valid() && Mirrors(cfg, st, disk) && slot < cfg.slotCount
    requires |chunk.body| <= cfg.chunkSize && Fits(Header(key, chunk)) && |st.areas[slot]| == cfg.chunkSize
    requires after.pages == st.pages[slot := Page(Header(key, chunk))]
    requires after.areas == st.areas[slot := chunk.body + st.areas[slot][|chunk.body|..]]
    ensures Mirrors(cfg, after, SlotWritten(cfg, disk, slot, key, chunk))
  {
    hide HeaderPage, BodyArea, PutHeader, PutBody, Page, BodyCrc, Sized;
    var n, size := cfg.slotCount, cfg.chunkSize;
    forall s | 0 <= s < n
      ensures HeaderPage(SlotWritten(cfg, disk, slot, key, chunk), n, size, s) == after.pages[s]
      ensures BodyArea(SlotWritten(cfg, disk, slot, key, chunk), n, size, s) == after.areas[s]
    {
      PutBodyFrame(disk, n, size, slot, chunk.body, s);
      PutHeaderFrame(PutBody(disk, n, size, slot, chunk.body), n, size, slot, Page(Header(key, chunk)), s);
    }
  }

  /** The steps of the put are the sequential store's put. */
  lemma PutAloneSteps(cfg: Config, st: State, disk: Disk, id: nat, key: Utf8, chunk: Chunk)
    requires cfg.Valid() && Inv(cfg, st) && id !in st.puts && Mirrors(cfg, st, disk) && Matches(cfg, st.lru, disk)
    ensures var after := PutAlone(cfg, st, id, key, chunk);
            var (w, disk', ok) := PutStep(cfg, st.lru, disk, key, chunk, None);
            && after.lru == w && Mirrors(cfg, after, disk')
            && after.gets == st.gets && after.puts == st.puts && after.served == st.served
  {
    assert st.lru.Valid(cfg.slotCount);
    hide Inv, Lru.Valid, Lru.Claim, Lru.Forget, SlotWritten, PutAlone, PutStep, Holds, Page, BodyCrc, Matches, Header;
    if |chunk.body| > cfg.chunkSize || key in st.lru.slotOf {
      PutStepNothing(cfg, st.lru, disk, key, chunk);
      PutNothingAlone(cfg, st, id, key, chunk);
    } else {
      ClaimedBelow(cfg, st.lru, key);
      var slot := st.lru.Claim(key).1.value;
      if LruCache.Nameable(key, chunk.eTag) {
        PutStepWrites(cfg, st.lru, disk, key, chunk, slot);
        PutWritesAlone(cfg, st, id, key, chunk, slot);
        WrittenMirrors(cfg, st, PutAlone(cfg, st, id, key, chunk), disk, slot, key, chunk);
      } else {
        PutStepFails(cfg, st.lru, disk, key, chunk, slot);
        PutFailsAlone(cfg, st, id, key, chunk, slot);
      }
    }
  }

  lemma PutStepNothing(cfg: Config, v: Lru, disk: Disk, key: Utf8, chunk: Chunk)
    requires cfg.Valid() && Matches(cfg, v, disk) && (|chunk.body| > cfg.chunkSize || key in v.slotOf)
    ensures |chunk.body| > cfg.chunkSize || v.Claim(key) == (v, None)
    ensures PutStep(cfg, v, disk, key, chunk, None).0 == v && PutStep(cfg, v, disk, key, chunk, None).1 == disk
  {
    hide Header, SlotWritten;
  }

  lemma PutStepWrites(cfg: Config, v: Lru, disk: Disk, key: Utf8, chunk: Chunk, slot: nat)
    requires cfg.Valid() && Matches(cfg, v, disk) && |chunk.body| <= cfg.chunkSize && slot < cfg.slotCount
    requires v.Claim(key).1 == Some(slot) && LruCache.Nameable(key, chunk.eTag)
    ensures Fits(Header(key, chunk))
    ensures PutStep(cfg, v, disk, key, chunk, None) ==
            (v.Claim(key).0, SlotWritten(cfg, disk, slot, key, chunk), true)
  {
    hide Lru.Claim, Lru.Forget, SlotWritten, BodyCrc;
  }

  lemma PutStepFails(cfg: Config, v: Lru, disk: Disk, key: Utf8, chunk: Chunk, slot: nat)
    requires cfg.Valid() && Matches(cfg, v, disk) && |chunk.body| <= cfg.chunkSize
    requires v.Claim(key).1 == Some(slot) && !LruCache.Nameable(key, chunk.eTag)
    ensures PutStep(cfg, v, disk, key, chunk, None) == (v.Claim(key).0.Forget(slot), disk, false)
  {
    hide Lru.Claim, Lru.Forget, SlotWritten, BodyCrc;
  }

  lemma ClaimedBelow(cfg: Config, v: Lru, key: Key)
    requires cfg.Valid() && v.Valid(cfg.slotCount) && key !in v.slotOf
    ensures v.Claim(key).1.Some? && v.Claim(key).1.value < cfg.slotCount
  {
    ClaimKeeps(v, cfg.slotCount, key);
    hide Lru.Valid, Lru.Claim;
    ClaimShape(v, cfg.slotCount, key);
  }

  /** So it is the reference cache's put. */
  lemma PutAloneRefines(cfg: Config, st: State, disk: Disk, id: nat, key: Utf8, chunk: Chunk)
    requires cfg.Valid() && Inv(cfg, st) && id !in st.puts && Mirrors(cfg, st, disk)
    ensures Matches(cfg, st.lru, disk)
    ensures var after := PutAlone(cfg, st, id, key, chunk);
            var (w, disk', ok) := PutStep(cfg, st.lru, disk, key, chunk, None);
            && after.lru == w && Mirrors(cfg, after, disk') && Matches(cfg, after.lru, disk')
            && after.gets == st.gets && after.puts == st.puts && after.served == st.served
            && (Contents(cfg, after.lru, disk'), ok) ==
               LruCache.Put(Contents(cfg, st.lru, disk), cfg.slotCount, cfg.chunkSize, key, chunk, false)
  {
    assert Matches(cfg, st.lru, disk);
    hide *;
    PutRefines(cfg, st.lru, disk, key, chunk, None);
    PutAloneSteps(cfg, st, disk, id, key, chunk);
  }

  lemma PutAloneKeeps(cfg: Config, st: State, id: nat, key: Utf8, chunk: Chunk)
    requires cfg.Valid() && Inv(cfg, st)
    ensures Inv(cfg, PutAlone(cfg, st, id, key, chunk))
  {
    hide Inv, Apply;
    var begun := Apply(cfg, st, BeginPut(id, key, chunk));
    ApplyKeeps(cfg, st, BeginPut(id, key, chunk));
    ApplyKeeps(cfg, begun, SyncBody(id));
    ApplyKeeps(cfg, Apply(cfg, begun, SyncBody(id)), WriteHeader(id));
    ApplyKeeps(cfg, begun, FailPut(id));
  }

  /** With checking on or off: a put and then a get that nothing comes between serves exactly the pair
      that was put. */
  lemma PutThenGetServes(cfg: Config, st: State, putId: nat, getId: nat, key: Utf8, chunk: Chunk)
    requires cfg.Valid() && Inv(cfg, st) && putId !in st.puts && getId !in st.gets && key !in st.lru.slotOf
    requires 1 <= |key| <= 3816 && (chunk.eTag.Some? ==> |chunk.eTag.value| <= 256) && |chunk.body| <= cfg.chunkSize
    ensures var put := PutAlone(cfg, st, putId, key, chunk);
            var after := GetAlone(cfg, put, getId, key);
            && after.served == st.served + {Pair(key, LruCache.Chunk(chunk.body, Tag(chunk.eTag)))}
            && key in after.lru.slotOf
  {
    hide Lru.Valid, Contents, LruCache.Get, LruCache.Put, PutAlone, GetAlone, Inv, Holds, GetStep, PutStep;
    var disk := SomeDisk(cfg, st);
    PutAloneKeeps(cfg, st, putId, key, chunk);
    PutAloneRefines(cfg, st, disk, putId, key, chunk);
    FindHeld(cfg, st.lru, disk, key);
    LruCache.PutThenGet(Contents(cfg, st.lru, disk), cfg.slotCount, cfg.chunkSize, key, chunk);
    var put, disk' := PutAlone(cfg, st, putId, key, chunk), PutStep(cfg, st.lru, disk, key, chunk, None).1;
    GetAloneRefines(cfg, put, disk', getId, key);
    HitStays(cfg, put.lru, disk', key);
  }

  /** A key that was answered is still held. */
  lemma HitStays(cfg: Config, v: Lru, disk: Disk, key: Key)
    requires Matches(cfg, v, disk)
    ensures var (w, r) := GetStep(cfg, v, disk, key, ReadFault(false, false));
            r.Ok? && r.value.Some? ==> key in w.slotOf
  {
    hide Lru.Valid, SlotChunk;
  }
}
