/**
 The chunk store with operations interleaved at every I/O, torn body writes, crashes that lose or
 keep any header page ever written, and reopenings.

 The lock sections of `put`, `get`, `remove` and `forget` are atomic; header reads, body reads,
 body writes and header writes are separate events, and a header page is read and written whole.
 */
module StoreInterleaving {
  import opened Common
  import opened Bytes
  import opened Crc
  import opened SlotHeaders
  import opened Layout
  import opened LruIndex
  import LruCache
  import opened ChunkStores

  /** A `get` after its lock section: what it has read so far. `header` is `Some(None)` once the
      page was read and held no header. */
  datatype Getting = Getting(key: Key, slot: nat, header: Option<Option<SlotHeader>>, body: Option<seq<Byte>>)

  /** A `put` after its lock section; `synced` once its body has been written and synced. */
  datatype Putting = Putting(key: Utf8, chunk: Chunk, slot: nat, synced: bool)

  /** A key and a chunk that were given, or served, together. */
  datatype Pair = Pair(key: Key, chunk: Chunk)

  datatype State = State(
    lru: Lru,
    pages: seq<seq<Byte>>,
    areas: seq<seq<Byte>>,
    gets: map<nat, Getting>,
    puts: map<nat, Putting>,
    given: set<Pair>,
    written: set<(nat, seq<Byte>)>,
    checked: set<seq<Byte>>,
    served: set<Pair>)

  datatype Event =
    | BeginGet(id: nat, key: Key)
    | ReadHeader(id: nat)
    | ReadBody(id: nat)
    | FinishGet(id: nat)
    | DropGet(id: nat)
    | BeginPut(id: nat, name: Utf8, chunk: Chunk)
    | TearBody(id: nat, area: seq<Byte>)
    | SyncBody(id: nat)
    | WriteHeader(id: nat)
    | FailPut(id: nat)
    | DropPut(id: nat)
    | RemoveKey(key: Key)
    | Crash(pages: seq<seq<Byte>>, areas: seq<seq<Byte>>)

  function Parsed(cfg: Config, page: seq<Byte>): Option<SlotHeader>
    requires |page| == SLOT_HEADER_BYTES
  {
    match Parse(page, cfg.chunkSize)
    case Ok(h) => Some(h)
    case Err(_) => None
  }

  /** `n` header pages and `n` body areas of the right sizes. */
  ghost predicate Image(cfg: Config, pages: seq<seq<Byte>>, areas: seq<seq<Byte>>) {
    && |pages| == |areas| == cfg.slotCount
    && (forall s :: 0 <= s < |pages| ==> |pages[s]| == SLOT_HEADER_BYTES)
    && (forall s :: 0 <= s < |areas| ==> |areas[s]| == cfg.chunkSize)
  }

  ghost function ParsedPages(cfg: Config, pages: seq<seq<Byte>>): (hs: seq<Option<SlotHeader>>)
    requires forall s :: 0 <= s < |pages| ==> |pages[s]| == SLOT_HEADER_BYTES
    ensures |hs| == |pages|
    ensures forall s :: 0 <= s < |hs| ==> hs[s] == Parsed(cfg, pages[s])
  {
    seq(|pages|, s requires 0 <= s < |pages| => Parsed(cfg, pages[s]))
  }

  // ----- events

  ghost function ApplyBeginGet(st: State, id: nat, key: Key): State {
    if id in st.gets then st
    else
      var (w, got) := st.lru.Touch(key);
      match got
      case None => st
      case Some(slot) => st.(lru := w, gets := st.gets[id := Getting(key, slot, None, None)])
  }

  ghost function ApplyReadHeader(cfg: Config, st: State, id: nat): State {
    if id in st.gets && st.gets[id].header.None? && st.gets[id].slot < |st.pages|
       && |st.pages[st.gets[id].slot]| == SLOT_HEADER_BYTES
    then
      var g := st.gets[id];
      st.(gets := st.gets[id := g.(header := Some(Parsed(cfg, st.pages[g.slot])))])
    else st
  }

  /** How many body bytes a `get` reads, once it may: behind an accepted header the rounded body
      length, or the whole slot when both reads are issued at once. */
  ghost function ReadLength(cfg: Config, g: Getting): Option<nat> {
    match cfg.readShape
    case Overlap => Some(cfg.chunkSize)
    case TwoRead =>
      if g.header.Some? && g.header.value.Some? && g.header.value.value.key == g.key then
        var rounded := AlignUp(g.header.value.value.bodyLen);
        Some(if rounded <= cfg.chunkSize then rounded else cfg.chunkSize)
      else None
  }

  ghost function ApplyReadBody(cfg: Config, st: State, id: nat): State {
    if id in st.gets && st.gets[id].body.None? && ReadLength(cfg, st.gets[id]).Some?
       && st.gets[id].slot < |st.areas| && ReadLength(cfg, st.gets[id]).value <= |st.areas[st.gets[id].slot]|
    then
      var g := st.gets[id];
      st.(gets := st.gets[id := g.(body := Some(st.areas[g.slot][..ReadLength(cfg, g).value]))])
    else st
  }

  ghost function EndGet(st: State, id: nat): State {
    st.(gets := st.gets - {id})
  }

  /** A `get` that found damage or another key drops its slot from the index. */
  ghost function RefuseGet(st: State, id: nat): State
    requires id in st.gets
  {
    EndGet(st.(lru := st.lru.Forget(st.gets[id].slot)), id)
  }

  ghost function ApplyFinishGet(cfg: Config, st: State, id: nat): State {
    if id !in st.gets || st.gets[id].header.None? then st
    else
      var g := st.gets[id];
      match g.header.value
      case None => RefuseGet(st, id)
      case Some(h) =>
        if h.key != g.key then RefuseGet(st, id)
        else if g.body.None? || |g.body.value| < h.bodyLen then st
        else
          var body := g.body.value[..h.bodyLen];
          var seen := st.(checked := st.checked + {body});
          if cfg.verifyBody && BodyCrc(body) != h.bodyCrc then RefuseGet(seen, id)
          else EndGet(seen.(served := seen.served + {Pair(g.key, LruCache.Chunk(body, h.eTag))}), id)
  }

  ghost function ApplyBeginPut(cfg: Config, st: State, id: nat, key: Utf8, chunk: Chunk): State {
    if id in st.puts || |chunk.body| > cfg.chunkSize then st
    else
      var (w, got) := st.lru.Claim(key);
      match got
      case None => st
      case Some(slot) =>
        st.(lru := w, puts := st.puts[id := Putting(key, chunk, slot, false)], given := st.given + {Pair(key, chunk)})
  }

  /** A body write in progress may leave any bytes in its slot's area. */
  ghost function ApplyTearBody(cfg: Config, st: State, id: nat, area: seq<Byte>): State {
    if id in st.puts && !st.puts[id].synced && |area| == cfg.chunkSize && st.puts[id].slot < |st.areas| then
      st.(areas := st.areas[st.puts[id].slot := area])
    else st
  }

  ghost function ApplySyncBody(st: State, id: nat): State {
    if id in st.puts && st.puts[id].slot < |st.areas|
       && |st.puts[id].chunk.body| <= |st.areas[st.puts[id].slot]|
    then
      var p := st.puts[id];
      st.(areas := st.areas[p.slot := p.chunk.body + st.areas[p.slot][|p.chunk.body|..]],
      puts := st.puts[id := p.(synced := true)])
    else st
  }

  ghost function ApplyWriteHeader(cfg: Config, st: State, id: nat): State {
    if id in st.puts && st.puts[id].synced && st.puts[id].slot < |st.pages|
       && |st.puts[id].chunk.body| < 0x1_0000_0000
       && Fits(Header(st.puts[id].key, st.puts[id].chunk))
    then
      var p := st.puts[id];
      var page := Page(Header(p.key, p.chunk));
      st.(pages := st.pages[p.slot := page], written := st.written + {(p.slot, page)}, puts := st.puts - {id})
    else st
  }

  ghost function ApplyFailPut(st: State, id: nat): State {
    if id in st.puts then st.(lru := st.lru.Forget(st.puts[id].slot), puts := st.puts - {id}) else st
  }

  /** After a crash every header page is one that was written to that slot at some time, the body
      areas hold anything, and the index is what a scan of the pages builds. */
  ghost function ApplyCrash(cfg: Config, st: State, pages: seq<seq<Byte>>, areas: seq<seq<Byte>>): State {
    if Image(cfg, pages, areas)
       && (forall s :: 0 <= s < |pages| ==> (s, pages[s]) in st.written)
       && DistinctHeaders(ParsedPages(cfg, pages))
    then
      st.(lru := Scanned(ParsedPages(cfg, pages)), pages := pages, areas := areas, gets := map[], puts := map[])
    else st
  }

  /** What an event does; one that is not possible in a state leaves it alone. */
  ghost function Apply(cfg: Config, st: State, e: Event): State {
    match e
    case BeginGet(id, key) => ApplyBeginGet(st, id, key)
    case ReadHeader(id) => ApplyReadHeader(cfg, st, id)
    case ReadBody(id) => ApplyReadBody(cfg, st, id)
    case FinishGet(id) => ApplyFinishGet(cfg, st, id)
    case DropGet(id) => EndGet(st, id)
    case BeginPut(id, key, chunk) => ApplyBeginPut(cfg, st, id, key, chunk)
    case TearBody(id, area) => ApplyTearBody(cfg, st, id, area)
    case SyncBody(id) => ApplySyncBody(st, id)
    case WriteHeader(id) => ApplyWriteHeader(cfg, st, id)
    case FailPut(id) => ApplyFailPut(st, id)
    case DropPut(id) => st.(puts := st.puts - {id})
    case RemoveKey(key) => st.(lru := st.lru.Remove(key).0)
    case Crash(pages, areas) => ApplyCrash(cfg, st, pages, areas)
  }

  ghost function Run(cfg: Config, st: State, es: seq<Event>): State
    decreases |es|
  {
    if es == [] then st else Run(cfg, Apply(cfg, st, es[0]), es[1..])
  }

  /** A store just opened over files that hold no header. */
  ghost predicate Fresh(cfg: Config, st: State) {
    && Image(cfg, st.pages, st.areas)
    && (forall s :: 0 <= s < |st.pages| ==> Parsed(cfg, st.pages[s]).None?)
    && st.lru == Scanned(ParsedPages(cfg, st.pages))
    && st.gets == map[] && st.puts == map[]
    && st.given == {} && st.checked == {} && st.served == {}
    && (forall w :: w in st.written <==> 0 <= w.0 < |st.pages| && w.1 == st.pages[w.0])
  }

  // ----- the invariant

  /** A header cannot tell an empty tag from none. */
  function Tag(t: Option<Utf8>): Option<Utf8> {
    if t == Some([]) then None else t
  }

  /** Header `h` describes the chunk of `p`. */
  ghost predicate Describes(h: SlotHeader, p: Pair) {
    && h.key == p.key && h.eTag == Tag(p.chunk.eTag)
    && h.bodyLen == |p.chunk.body| && h.bodyCrc == BodyCrc(p.chunk.body)
  }

  ghost predicate FromPut(h: SlotHeader, given: set<Pair>) {
    exists p :: p in given && Describes(h, p)
  }

  ghost predicate PageFromPut(cfg: Config, page: seq<Byte>, given: set<Pair>) {
    |page| == SLOT_HEADER_BYTES && (Parsed(cfg, page).Some? ==> FromPut(Parsed(cfg, page).value, given))
  }

  ghost predicate GetOk(cfg: Config, g: Getting, given: set<Pair>) {
    && g.slot < cfg.slotCount
    && (g.header.Some? && g.header.value.Some? ==>
          FromPut(g.header.value.value, given) && g.header.value.value.bodyLen <= cfg.chunkSize)
    && (g.body.Some? && cfg.readShape.Overlap? ==> |g.body.value| == cfg.chunkSize)
    && (g.body.Some? && cfg.readShape.TwoRead? ==>
          g.header.Some? && g.header.value.Some? && g.header.value.value.bodyLen <= |g.body.value|)
  }

  ghost predicate PutOk(cfg: Config, p: Putting, given: set<Pair>) {
    p.slot < cfg.slotCount && |p.chunk.body| <= cfg.chunkSize && Pair(p.key, p.chunk) in given
  }

  /** Every header page there is, was or may come back describes a chunk some `put` was given. */
  ghost predicate PagesOk(cfg: Config, st: State) {
    && Image(cfg, st.pages, st.areas)
    && (forall w :: w in st.written ==> PageFromPut(cfg, w.1, st.given))
    && (forall s :: 0 <= s < |st.pages| ==> (s, st.pages[s]) in st.written)
  }

  ghost predicate OpsOk(cfg: Config, st: State) {
    && (forall id :: id in st.gets ==> GetOk(cfg, st.gets[id], st.given))
    && (forall id :: id in st.puts ==> PutOk(cfg, st.puts[id], st.given))
  }

  /** No byte string that was checked shares its length and checksum with a different given body. */
  ghost predicate NoCollision(st: State) {
    forall r, p :: r in st.checked && p in st.given && |r| == |p.chunk.body| && BodyCrc(r) == BodyCrc(p.chunk.body)
      ==> r == p.chunk.body
  }

  /** Served pair `q` is given pair `p`, body and tag together. */
  ghost predicate IsGiven(q: Pair, p: Pair) {
    q.key == p.key && q.chunk == LruCache.Chunk(p.chunk.body, Tag(p.chunk.eTag))
  }

  /** Everything served was given, body and tag together, to a `put` of the same key. */
  ghost predicate ServedWasGiven(st: State) {
    forall q :: q in st.served ==> exists p :: p in st.given && IsGiven(q, p)
  }

  /** Bodies are checked before they are served, or there is nothing in them to check. */
  predicate Checked(cfg: Config) {
    cfg.verifyBody || cfg.chunkSize == 0
  }

  ghost predicate Inv(cfg: Config, st: State) {
    && st.lru.Valid(cfg.slotCount)
    && PagesOk(cfg, st)
    && OpsOk(cfg, st)
    && (Checked(cfg) && NoCollision(st) ==> ServedWasGiven(st))
  }

  /** Checked for every event: a larger history keeps what the smaller one justified. */
  lemma GivenGrows(cfg: Config, a: State, b: State)
    requires a.given <= b.given
    ensures forall h :: FromPut(h, a.given) ==> FromPut(h, b.given)
    ensures forall page :: PageFromPut(cfg, page, a.given) ==> PageFromPut(cfg, page, b.given)
    ensures forall g :: GetOk(cfg, g, a.given) ==> GetOk(cfg, g, b.given)
    ensures forall p :: PutOk(cfg, p, a.given) ==> PutOk(cfg, p, b.given)
  {
    hide BodyCrc, Parsed;
  }

  lemma BeginPutKeeps(cfg: Config, st: State, id: nat, key: Utf8, chunk: Chunk)
    requires cfg.Valid() && Inv(cfg, st)
    ensures Inv(cfg, ApplyBeginPut(cfg, st, id, key, chunk))
  {
    hide BodyCrc, Parsed, Lru.Valid;
    var next := ApplyBeginPut(cfg, st, id, key, chunk);
    ClaimKeeps(st.lru, cfg.slotCount, key);
    GivenGrows(cfg, st, next);
  }

  /** The page a `put` writes describes what it was given. */
  lemma WrittenPageFromPut(cfg: Config, p: Putting, given: set<Pair>)
    requires cfg.Valid() && PutOk(cfg, p, given) && Fits(Header(p.key, p.chunk))
    ensures PageFromPut(cfg, Page(Header(p.key, p.chunk)), given)
  {
    var h := Header(p.key, p.chunk);
    ParseOfPage(h, cfg.chunkSize);
    var back := Parsed(cfg, Page(h));
    if back.Some? {
      assert Describes(back.value, Pair(p.key, p.chunk));
    }
  }

  lemma WriteHeaderKeeps(cfg: Config, st: State, id: nat)
    requires cfg.Valid() && Inv(cfg, st)
    ensures Inv(cfg, ApplyWriteHeader(cfg, st, id))
  {
    hide BodyCrc, Parsed, Lru.Valid, PageFromPut;
    if id in st.puts && ApplyWriteHeader(cfg, st, id) != st {
      WrittenPageFromPut(cfg, st.puts[id], st.given);
    }
  }

  lemma ReadHeaderKeeps(cfg: Config, st: State, id: nat)
    requires Inv(cfg, st)
    ensures Inv(cfg, ApplyReadHeader(cfg, st, id))
  {
    hide BodyCrc, Lru.Valid, FromPut;
    if id in st.gets {
      var g := st.gets[id];
      assert GetOk(cfg, g, st.given) && (g.slot, st.pages[g.slot]) in st.written;
    }
  }

  lemma ReadBodyKeeps(cfg: Config, st: State, id: nat)
    requires Inv(cfg, st)
    ensures Inv(cfg, ApplyReadBody(cfg, st, id))
  {
    hide BodyCrc, Lru.Valid, FromPut, Parsed;
    if id in st.gets {
      assert GetOk(cfg, st.gets[id], st.given);
    }
  }

  lemma RefuseKeeps(cfg: Config, st: State, id: nat)
    requires Inv(cfg, st) && id in st.gets
    ensures Inv(cfg, RefuseGet(st, id))
  {
    hide BodyCrc, Lru.Valid, GetOk, PutOk, PageFromPut;
    ForgetKeeps(st.lru, cfg.slotCount, st.gets[id].slot);
  }

  /** With the body checked and no collision, what a header describes is what was read. */
  lemma CheckedIsGiven(st: State, h: SlotHeader, body: seq<Byte>)
    requires FromPut(h, st.given) && body in st.checked
    requires |body| == h.bodyLen && (BodyCrc(body) == h.bodyCrc || body == [])
    requires NoCollision(st)
    ensures exists p :: p in st.given && IsGiven(Pair(h.key, LruCache.Chunk(body, h.eTag)), p)
  {
    hide BodyCrc;
    var p :| p in st.given && Describes(h, p);
    assert body == [] ==> p.chunk.body == [];
    assert IsGiven(Pair(h.key, LruCache.Chunk(body, h.eTag)), p);
  }

  lemma FinishGetKeeps(cfg: Config, st: State, id: nat)
    requires Inv(cfg, st)
    ensures Inv(cfg, ApplyFinishGet(cfg, st, id))
  {
    hide BodyCrc, Lru.Valid, PutOk, PageFromPut, FromPut;
    if id in st.gets && st.gets[id].header.Some? {
      var g := st.gets[id];
      assert GetOk(cfg, g, st.given);
      RefuseKeeps(cfg, st, id);
      if g.header.value.Some? && g.header.value.value.key == g.key && g.body.Some? {
        var h := g.header.value.value;
        assert h.bodyLen <= |g.body.value|;
        var body := g.body.value[..h.bodyLen];
        var seen := st.(checked := st.checked + {body});
        assert Inv(cfg, seen);
        RefuseKeeps(cfg, seen, id);
        if Checked(cfg) && (BodyCrc(body) == h.bodyCrc || !cfg.verifyBody) && NoCollision(seen) {
          CheckedIsGiven(seen, h, body);
        }
      }
    }
  }

  lemma CrashKeeps(cfg: Config, st: State, pages: seq<seq<Byte>>, areas: seq<seq<Byte>>)
    requires Inv(cfg, st)
    ensures Inv(cfg, ApplyCrash(cfg, st, pages, areas))
  {
    hide BodyCrc, Lru.Valid, GetOk, PutOk, PageFromPut, Parsed, Scanned;
    if Image(cfg, pages, areas) {
      ScannedValidIff(ParsedPages(cfg, pages));
    }
  }

  lemma BodyEventsKeep(cfg: Config, st: State, e: Event)
    requires Inv(cfg, st)
    requires e.TearBody? || e.SyncBody?
    ensures Inv(cfg, Apply(cfg, st, e))
  {
    hide BodyCrc, PageFromPut, GetOk, Lru.Valid;
  }

  lemma IndexEventsKeep(cfg: Config, st: State, e: Event)
    requires Inv(cfg, st)
    requires e.BeginGet? || e.DropGet? || e.FailPut? || e.DropPut? || e.RemoveKey?
    ensures Inv(cfg, Apply(cfg, st, e))
  {
    hide BodyCrc, PageFromPut, FromPut, PutOk, Lru.Valid, Lru.Touch, Lru.Forget;
    match e {
      case BeginGet(id, key) => TouchKeeps(st.lru, cfg.slotCount, key);
      case FailPut(id) => if id in st.puts { ForgetKeeps(st.lru, cfg.slotCount, st.puts[id].slot); }
      case RemoveKey(key) => if key in st.lru.slotOf { ForgetKeeps(st.lru, cfg.slotCount, st.lru.slotOf[key]); }
      case _ =>
    }
  }

  lemma ApplyKeeps(cfg: Config, st: State, e: Event)
    requires cfg.Valid() && Inv(cfg, st)
    ensures Inv(cfg, Apply(cfg, st, e))
  {
    hide Inv;
    match e {
      case ReadHeader(id) => ReadHeaderKeeps(cfg, st, id);
      case ReadBody(id) => ReadBodyKeeps(cfg, st, id);
      case FinishGet(id) => FinishGetKeeps(cfg, st, id);
      case BeginPut(id, key, chunk) => BeginPutKeeps(cfg, st, id, key, chunk);
      case WriteHeader(id) => WriteHeaderKeeps(cfg, st, id);
      case Crash(pages, areas) => CrashKeeps(cfg, st, pages, areas);
      case TearBody(_, _) => BodyEventsKeep(cfg, st, e);
      case SyncBody(_) => BodyEventsKeep(cfg, st, e);
      case _ => IndexEventsKeep(cfg, st, e);
    }
  }

  lemma FreshInv(cfg: Config, st: State)
    requires Fresh(cfg, st)
    ensures Inv(cfg, st)
  {
    hide Lru.Valid, Parsed;
    ScannedValidIff(ParsedPages(cfg, st.pages));
  }

  /** Every interleaving, every crash: the index invariant holds, and when bodies are checked
      whatever has been served was given to an earlier `put` of that key, as long as no checksum
      collided. */
  lemma {:induction false} EveryRunSafe(cfg: Config, st: State, es: seq<Event>)
    requires cfg.Valid() && Inv(cfg, st)
    ensures Inv(cfg, Run(cfg, st, es))
    decreases |es|
  {
    hide Inv, Apply;
    if es != [] {
      ApplyKeeps(cfg, st, es[0]);
      EveryRunSafe(cfg, Apply(cfg, st, es[0]), es[1..]);
    }
  }

  // ----- without the check, the same promise fails

  ghost function Blank(count: nat, size: nat): (b: seq<seq<Byte>>)
    ensures |b| == count
    ensures forall s :: 0 <= s < count ==> b[s] == Zeros(size)
  {
    seq(count, s requires 0 <= s < count => Zeros(size))
  }

  /** A store opened over zeroed files. */
  ghost function ZeroState(cfg: Config): State {
    var pages := Blank(cfg.slotCount, SLOT_HEADER_BYTES);
    State(Scanned(ParsedPages(cfg, pages)), pages, Blank(cfg.slotCount, cfg.chunkSize),
          map[], map[], {}, set s: nat | s < cfg.slotCount :: (s, pages[s]), {}, {})
  }

  lemma ZeroStateFresh(cfg: Config)
    ensures Fresh(cfg, ZeroState(cfg))
  {
    hide Parse, Scanned;
    ZeroPageIsFree(cfg.chunkSize);
    var st := ZeroState(cfg);
    forall w
      ensures w in st.written <==> 0 <= w.0 < |st.pages| && w.1 == st.pages[w.0]
    {
      if 0 <= w.0 < |st.pages| && w.1 == st.pages[w.0] {
        assert w == (w.0, st.pages[w.0]);
      }
    }
  }

  lemma RunOne(cfg: Config, st: State, e: Event, es: seq<Event>)
    ensures Run(cfg, st, [e] + es) == Run(cfg, Apply(cfg, st, e), es)
  {
    hide Apply;
    assert ([e] + es)[1..] == es;
  }

  // One run breaks the promise: a `get` of the first key reads its header, the key is removed, a
  // `put` of the second key reuses the slot and syncs its body, and only then does the `get` read
  // the body. What it serves was never given under its key.

  const FIRST: Utf8 := [97]
  const SECOND: Utf8 := [98]
  const FIRST_CHUNK: Chunk := LruCache.Chunk([1], None)
  const SECOND_CHUNK: Chunk := LruCache.Chunk([2], None)

  function FirstHeader(): SlotHeader { SlotHeader(FIRST, 1, BodyCrc([1]), None) }

  lemma FirstHeaderParses(cfg: Config)
    requires cfg.chunkSize > 0
    ensures Fits(FirstHeader()) && Header(FIRST, FIRST_CHUNK) == FirstHeader()
    ensures Parsed(cfg, Page(FirstHeader())) == Some(FirstHeader())
  {
    hide BodyCrc, Page, Parse;
    ParseOfPage(FirstHeader(), cfg.chunkSize);
  }

  /** The first key alone is held, in `slot`, and nothing is in flight. */
  ghost predicate FirstStored(cfg: Config, st: State, slot: nat) {
    && Image(cfg, st.pages, st.areas) && st.lru.Valid(cfg.slotCount) && slot < cfg.slotCount
    && st.lru.order == [slot] && st.lru.slotOf == map[FIRST := slot] && st.lru.keyOf == map[slot := FIRST]
    && st.pages[slot] == Page(FirstHeader())
    && st.gets == map[] && st.puts == map[]
    && st.given == {Pair(FIRST, FIRST_CHUNK)} && st.checked == {} && st.served == {}
  }

  lemma StoreFirst(cfg: Config, st: State) returns (next: State, slot: nat)
    requires cfg.Valid() && cfg.chunkSize > 0 && Fresh(cfg, st)
    ensures next == Apply(cfg, Apply(cfg, Apply(cfg, st, BeginPut(0, FIRST, FIRST_CHUNK)), SyncBody(0)), WriteHeader(0))
    ensures Fits(FirstHeader()) && FirstStored(cfg, next, slot)
  {
    hide BodyCrc, Page, Parsed, Scanned;
    FirstHeaderParses(cfg);
    var hs := ParsedPages(cfg, st.pages);
    ScannedValidIff(hs);
    ScannedShape(hs);
    assert 0 in st.lru.free;
    ScannedEmpty(hs);
    ClaimKeeps(st.lru, cfg.slotCount, FIRST);
    slot := st.lru.Claim(FIRST).1.value;
    next := Apply(cfg, Apply(cfg, Apply(cfg, st, BeginPut(0, FIRST, FIRST_CHUNK)), SyncBody(0)), WriteHeader(0));
  }

  /** The `get` has the first key's header in hand and the key is gone from the index. */
  ghost predicate HeaderInHand(cfg: Config, st: State, slot: nat) {
    && Image(cfg, st.pages, st.areas) && slot < cfg.slotCount
    && st.lru.order == [] && st.lru.slotOf == map[] && st.lru.keyOf == map[]
    && st.lru.free != [] && st.lru.free[|st.lru.free| - 1] == slot
    && st.gets == map[0 := Getting(FIRST, slot, Some(Some(FirstHeader())), None)] && st.puts == map[]
    && st.given == {Pair(FIRST, FIRST_CHUNK)} && st.checked == {} && st.served == {}
  }

  lemma TakeHeader(cfg: Config, st: State, slot: nat) returns (next: State)
    requires cfg.Valid() && cfg.chunkSize > 0 && Fits(FirstHeader()) && FirstStored(cfg, st, slot)
    ensures next == Apply(cfg, Apply(cfg, Apply(cfg, st, BeginGet(0, FIRST)), ReadHeader(0)), RemoveKey(FIRST))
    ensures HeaderInHand(cfg, next, slot)
  {
    hide BodyCrc, Page, Parsed, Lru.Valid;
    FirstHeaderParses(cfg);
    next := Apply(cfg, Apply(cfg, Apply(cfg, st, BeginGet(0, FIRST)), ReadHeader(0)), RemoveKey(FIRST));
  }

  lemma ServeMixed(cfg: Config, st: State, slot: nat) returns (next: State)
    requires cfg.Valid() && cfg.chunkSize > 0 && !cfg.verifyBody && HeaderInHand(cfg, st, slot)
    ensures var put := Apply(cfg, Apply(cfg, st, BeginPut(1, SECOND, SECOND_CHUNK)), SyncBody(1));
            next == Apply(cfg, Apply(cfg, put, ReadBody(0)), FinishGet(0))
    ensures next.given == {Pair(FIRST, FIRST_CHUNK), Pair(SECOND, SECOND_CHUNK)}
    ensures next.checked == {[2]} && next.served == {Pair(FIRST, SECOND_CHUNK)}
  {
    hide BodyCrc;
    var s1 := Apply(cfg, st, BeginPut(1, SECOND, SECOND_CHUNK));
    var s2 := Apply(cfg, s1, SyncBody(1));
    var s3 := Apply(cfg, s2, ReadBody(0));
    assert s2.areas[slot][0] == 2;
    var g := s3.gets[0];
    assert g.body.value[..1] == [2];
    next := Apply(cfg, s3, FinishGet(0));
  }

  /** There is a run, without any collision, that serves a chunk its key was never given. */
  lemma UncheckedServesMixed(cfg: Config) returns (es: seq<Event>)
    requires cfg.Valid() && !Checked(cfg)
    ensures NoCollision(Run(cfg, ZeroState(cfg), es)) && !ServedWasGiven(Run(cfg, ZeroState(cfg), es))
  {
    hide BodyCrc, Apply, Fresh, FirstStored, HeaderInHand;
    ZeroStateFresh(cfg);
    var s0 := ZeroState(cfg);
    var s3, slot := StoreFirst(cfg, s0);
    var s6 := TakeHeader(cfg, s3, slot);
    var s10 := ServeMixed(cfg, s6, slot);
    var (put1, sync1, head1) := (BeginPut(0, FIRST, FIRST_CHUNK), SyncBody(0), WriteHeader(0));
    var (get1, read1, gone1) := (BeginGet(0, FIRST), ReadHeader(0), RemoveKey(FIRST));
    var (put2, sync2, body1, end1) := (BeginPut(1, SECOND, SECOND_CHUNK), SyncBody(1), ReadBody(0), FinishGet(0));
    var t3: seq<Event> := [put2] + ([sync2] + ([body1] + ([end1] + [])));
    var t2 := [get1] + ([read1] + ([gone1] + t3));
    es := [put1] + ([sync1] + ([head1] + t2));
    RunThree(cfg, s0, put1, sync1, head1, t2);
    RunThree(cfg, s3, get1, read1, gone1, t3);
    RunThree(cfg, s6, put2, sync2, body1, [end1] + []);
    RunOne(cfg, Apply(cfg, Apply(cfg, Apply(cfg, s6, put2), sync2), body1), end1, []);
    assert Run(cfg, s0, es) == s10;
    OneByteDetected([1], 0, 2);
    assert [1][0 := 2] == [2];
    assert Pair(FIRST, SECOND_CHUNK) in s10.served;
  }

  lemma RunThree(cfg: Config, st: State, a: Event, b: Event, c: Event, es: seq<Event>)
    ensures Run(cfg, st, [a] + ([b] + ([c] + es))) == Run(cfg, Apply(cfg, Apply(cfg, Apply(cfg, st, a), b), c), es)
  {
    hide Apply;
    RunOne(cfg, st, a, [b] + ([c] + es));
    RunOne(cfg, Apply(cfg, st, a), b, [c] + es);
    RunOne(cfg, Apply(cfg, Apply(cfg, st, a), b), c, es);
  }

  /** In every collision-free run everything served was given. */
  ghost predicate AlwaysServesGiven(cfg: Config) {
    forall st, es :: Fresh(cfg, st) && NoCollision(Run(cfg, st, es)) ==> ServedWasGiven(Run(cfg, st, es))
  }

  /** Interleaving and crashes are safe exactly when bodies are checked before they are served. */
  lemma SafeIffChecked(cfg: Config)
    requires cfg.Valid()
    ensures AlwaysServesGiven(cfg) <==> cfg.verifyBody || cfg.chunkSize == 0
  {
    hide Run, NoCollision, ServedWasGiven;
    if Checked(cfg) {
      forall st, es | Fresh(cfg, st)
        ensures NoCollision(Run(cfg, st, es)) ==> ServedWasGiven(Run(cfg, st, es))
      {
        FreshInv(cfg, st);
        EveryRunSafe(cfg, st, es);
      }
    } else {
      var es := UncheckedServesMixed(cfg);
      ZeroStateFresh(cfg);
    }
  }

  // ----- the header goes last

  lemma SyncedBySync(cfg: Config, st: State, e: Event, id: nat)
    requires id in st.puts ==> !st.puts[id].synced
    requires e != SyncBody(id)
    ensures var after := Apply(cfg, st, e); id in after.puts ==> !after.puts[id].synced
  {
    hide Lru.Touch, Lru.Claim, Lru.Forget, Lru.Remove, Page, Fits, BodyCrc, Parsed, Image, ReadLength;
  }

  /** In every run, whatever else is going on, a header page is written only for a put whose body was
      written and synced before. */
  lemma {:induction false} HeaderAfterBody(cfg: Config, st: State, es: seq<Event>, id: nat)
    requires id in st.puts ==> !st.puts[id].synced
    ensures var w := Run(cfg, st, es);
            Apply(cfg, w, WriteHeader(id)) != w ==> SyncBody(id) in es
    decreases |es|
  {
    hide Page, Fits;
    if es != [] && es[0] != SyncBody(id) {
      SyncedBySync(cfg, st, es[0], id);
      hide Apply;
      HeaderAfterBody(cfg, Apply(cfg, st, es[0]), es[1..], id);
    }
  }

  /** Until then its slot's area may hold any bytes whatever, and nothing else changes. */
  lemma TornBodyIsAny(cfg: Config, st: State, id: nat, area: seq<Byte>)
    requires Inv(cfg, st) && id in st.puts && !st.puts[id].synced && |area| == cfg.chunkSize
    ensures st.puts[id].slot < |st.areas|
    ensures Apply(cfg, st, TearBody(id, area)) == st.(areas := st.areas[st.puts[id].slot := area])
  {
  }

  /** A crash may leave any pages that were ever written, over any bodies; reopened, the store holds
      exactly the keys those pages name, each in its page's slot, and nothing is under way. */
  lemma CrashReopens(cfg: Config, st: State, pages: seq<seq<Byte>>, areas: seq<seq<Byte>>)
    requires Image(cfg, pages, areas) && DistinctHeaders(ParsedPages(cfg, pages))
    requires forall s :: 0 <= s < |pages| ==> (s, pages[s]) in st.written
    ensures var after := Apply(cfg, st, Crash(pages, areas));
            && after.pages == pages && after.areas == areas && after.gets == map[] && after.puts == map[]
            && (forall k :: k in after.lru.slotOf ==>
                  var s := after.lru.slotOf[k];
                  s < |pages| && Parsed(cfg, pages[s]).Some? && Parsed(cfg, pages[s]).value.key == k)
            && (forall s :: 0 <= s < |pages| && Parsed(cfg, pages[s]).Some? ==>
                  var k := Parsed(cfg, pages[s]).value.key;
                  k in after.lru.slotOf && after.lru.slotOf[k] == s)
  {
    hide Parsed, Scanned;
    var hs := ParsedPages(cfg, pages);
    ScannedMap(hs);
    forall s | 0 <= s < |pages| && hs[s].Some?
      ensures Scanned(hs).slotOf[hs[s].value.key] == s
    {
      var other := Scanned(hs).slotOf[hs[s].value.key];
      assert s <= other && hs[other].Some? && hs[other].value.key == hs[s].value.key;
    }
  }
}
