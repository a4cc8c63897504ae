/**
 Whole sequential runs of the chunk store, and what a restart recovers after one.
 */
module StoreRuns {
  import opened Common
  import opened Bytes
  import opened SlotHeaders
  import opened Layout
  import opened LruIndex
  import LruCache
  import opened ChunkStores

  /** An operation and what the disk does to it. */
  datatype Op =
    | Get(key: Utf8, readFault: ReadFault)
    | Put(key: Utf8, chunk: Chunk, writeFault: Option<WriteFault>)
    | Remove(key: Utf8)

  datatype Out = Read(answer: LruCache.Answer) | Told(ok: bool)

  /** The index and the extent files. */
  datatype State = State(lru: Lru, disk: Disk)

  ghost predicate Ready(cfg: Config, st: State) {
    cfg.Valid() && Matches(cfg, st.lru, st.disk)
  }

  ghost function Step(cfg: Config, st: State, op: Op): (State, Out)
    requires Ready(cfg, st)
  {
    match op
    case Get(key, fault) =>
      var (w, r) := GetStep(cfg, st.lru, st.disk, key, fault);
      (State(w, st.disk), Read(r))
    case Put(key, chunk, fault) =>
      var (w, disk, ok) := PutStep(cfg, st.lru, st.disk, key, chunk, fault);
      (State(w, disk), Told(ok))
    case Remove(key) =>
      var (w, held) := st.lru.Remove(key);
      (State(w, st.disk), Told(held))
  }

  /** Whether a read of the disk failed under an operation. */
  predicate ReadFailed(out: Out) { out.Read? && out.answer.Err? }

  /** The same operation on the reference cache, told only whether a read or a write failed. */
  ghost function CacheStep(cfg: Config, c: LruCache.Cache, op: Op, readFailed: bool): (LruCache.Cache, Out) {
    match op
    case Get(key, _) =>
      var (d, r) := LruCache.Get(c, key, readFailed);
      (d, Read(r))
    case Put(key, chunk, fault) =>
      var (d, ok) := LruCache.Put(c, cfg.slotCount, cfg.chunkSize, key, chunk, fault.Some?);
      (d, Told(ok))
    case Remove(key) =>
      var (d, held) := LruCache.Remove(c, key);
      (d, Told(held))
  }

  lemma StepRefines(cfg: Config, st: State, op: Op)
    requires Ready(cfg, st)
    ensures var (next, out) := Step(cfg, st, op);
            && Ready(cfg, next)
            && (Contents(cfg, next.lru, next.disk), out) ==
               CacheStep(cfg, Contents(cfg, st.lru, st.disk), op, ReadFailed(out))
            && (NoReadFault(op) ==> !ReadFailed(out))
  {
    hide Contents, Lru.Valid, GetStep, PutStep, LruCache.Get, LruCache.Put, LruCache.Remove;
    match op {
      case Get(key, fault) => GetRefines(cfg, st.lru, st.disk, key, fault);
      case Put(key, chunk, fault) => PutRefines(cfg, st.lru, st.disk, key, chunk, fault);
      case Remove(key) => RemoveRefines(cfg, st.lru, st.disk, key);
    }
  }

  ghost function Run(cfg: Config, st: State, ops: seq<Op>): (r: (State, seq<Out>))
    requires Ready(cfg, st)
    ensures Ready(cfg, r.0)
    decreases |ops|
  {
    hide Step, Ready, Contents, CacheStep;
    if ops == [] then (st, [])
    else
      StepRefines(cfg, st, ops[0]);
      var (next, out) := Step(cfg, st, ops[0]);
      var (last, outs) := Run(cfg, next, ops[1..]);
      (last, [out] + outs)
  }

  /** The reference cache's run; `failed[i]` says that a read failed under operation `i`. */
  ghost function CacheRun(cfg: Config, c: LruCache.Cache, ops: seq<Op>, failed: seq<bool>): (LruCache.Cache, seq<Out>)
    requires |failed| == |ops|
    decreases |ops|
  {
    if ops == [] then (c, [])
    else
      var (next, out) := CacheStep(cfg, c, ops[0], failed[0]);
      var (last, outs) := CacheRun(cfg, next, ops[1..], failed[1..]);
      (last, [out] + outs)
  }

  /** Where the disk failed in a run. */
  function Failures(outs: seq<Out>): (r: seq<bool>)
    ensures |r| == |outs|
  {
    if outs == [] then [] else [ReadFailed(outs[0])] + Failures(outs[1..])
  }

  /** No read of an operation fails. */
  predicate NoReadFault(op: Op) { op.Get? ==> !op.readFault.header && !op.readFault.body }

  /** Every answer of every sequential run is the reference cache's answer, whatever fails, and
      reads are reported as failing only where one did. */
  lemma {:induction false} RunRefines(cfg: Config, st: State, ops: seq<Op>)
    requires Ready(cfg, st)
    ensures var (last, outs) := Run(cfg, st, ops);
            && |outs| == |ops|
            && (Contents(cfg, last.lru, last.disk), outs) ==
               CacheRun(cfg, Contents(cfg, st.lru, st.disk), ops, Failures(outs))
            && (forall i :: 0 <= i < |ops| && NoReadFault(ops[i]) ==> !ReadFailed(outs[i]))
    decreases |ops|
  {
    hide Contents, Step, CacheStep;
    if ops != [] {
      StepRefines(cfg, st, ops[0]);
      var next := Step(cfg, st, ops[0]).0;
      RunRefines(cfg, next, ops[1..]);
      var outs, rest := Run(cfg, st, ops).1, Run(cfg, next, ops[1..]).1;
      assert forall i :: 0 < i < |ops| ==> ops[i] == ops[1..][i - 1] && outs[i] == rest[i - 1];
    }
  }

  const NO_FAULT := ReadFault(false, false)

  /** For every key and tag a header has room for and every body a slot has room for, a put of a key
      not held succeeds, and the next get of that key answers that chunk. */
  lemma PutThenGet(cfg: Config, st: State, key: Utf8, chunk: Chunk)
    requires Ready(cfg, st) && key !in st.lru.slotOf
    requires 1 <= |key| <= 3816 && (chunk.eTag.Some? ==> |chunk.eTag.value| <= 256)
    requires |chunk.body| <= cfg.chunkSize
    ensures var (next, out) := Step(cfg, st, Put(key, chunk, None));
            && out == Told(true) && Ready(cfg, next)
            && Step(cfg, next, Get(key, NO_FAULT)).1 ==
               Read(Ok(Some(chunk.(eTag := if chunk.eTag == Some([]) then None else chunk.eTag))))
  {
    hide Step, Contents, Lru.Valid, LruCache.Get, LruCache.Put;
    var c := Contents(cfg, st.lru, st.disk);
    assert LruCache.Find(c, key).None? by { FindHeld(cfg, st.lru, st.disk, key); }
    StepRefines(cfg, st, Put(key, chunk, None));
    var next := Step(cfg, st, Put(key, chunk, None)).0;
    StepRefines(cfg, next, Get(key, NO_FAULT));
    LruCache.PutThenGet(c, cfg.slotCount, cfg.chunkSize, key, chunk);
  }

  // ----- restart

  /** The headers on disk name exactly the slots the index holds. */
  ghost predicate Agrees(cfg: Config, st: State)
    requires Ready(cfg, st)
  {
    forall s :: 0 <= s < cfg.slotCount ==>
      HeaderOf(cfg, st.disk, s).Some? == (s in st.lru.keyOf)
      && (s in st.lru.keyOf ==> HeaderOf(cfg, st.disk, s).value.key == st.lru.keyOf[s])
  }

  /** The state a store opened over `disk` starts in. */
  ghost function Opened(cfg: Config, disk: Disk): State
    requires Sized(disk, cfg.slotCount, cfg.chunkSize)
  {
    State(Scanned(Headers(cfg, disk)), disk)
  }

  lemma OpenedAgrees(cfg: Config, disk: Disk)
    requires cfg.Valid() && Sized(disk, cfg.slotCount, cfg.chunkSize) && DistinctHeaders(Headers(cfg, disk))
    ensures Ready(cfg, Opened(cfg, disk)) && Agrees(cfg, Opened(cfg, disk))
  {
    ScannedValidIff(Headers(cfg, disk));
    ScannedShape(Headers(cfg, disk));
  }

  lemma AgreeingHeadersDistinct(cfg: Config, st: State)
    requires Ready(cfg, st) && Agrees(cfg, st)
    ensures DistinctHeaders(Headers(cfg, st.disk))
  {
    var hs := Headers(cfg, st.disk);
    forall i, j | 0 <= i < j < |hs| && hs[i].Some? && hs[j].Some?
      ensures hs[i].value.key != hs[j].value.key
    {
      assert i in st.lru.keyOf && j in st.lru.keyOf;
    }
  }

  /** Two valid indexes with the same slot names have the same key map. */
  lemma SameSlotsSameKeys(v: Lru, w: Lru, n: nat)
    requires v.Valid(n) && w.Valid(n) && v.keyOf == w.keyOf
    ensures v.slotOf == w.slotOf
  {
    assert forall k :: k in v.slotOf <==> k in w.slotOf;
  }

  /** A scan of headers that name exactly the keys of `keyOf` gives `keyOf` back. */
  lemma ScannedKeys(hs: seq<Option<SlotHeader>>, keyOf: map<nat, Key>)
    requires forall s :: s in keyOf ==> s < |hs|
    requires forall s :: 0 <= s < |hs| ==> hs[s].Some? == (s in keyOf)
    requires forall s :: 0 <= s < |hs| && hs[s].Some? ==> hs[s].value.key == keyOf[s]
    ensures Scanned(hs).keyOf == keyOf
  {
    hide Scanned;
    ScannedShape(hs);
  }

  lemma AgreeingRestart(cfg: Config, st: State)
    requires Ready(cfg, st) && Agrees(cfg, st)
    ensures Opened(cfg, st.disk).lru.keyOf == st.lru.keyOf
  {
    assert forall s :: s in st.lru.keyOf ==> s < cfg.slotCount;
    hide HeaderOf, Scanned, Lru.Valid;
    ScannedKeys(Headers(cfg, st.disk), st.lru.keyOf);
  }

  /** A restart recovers the key-to-slot map exactly when disk and index agree. */
  lemma RestartRecoversIff(cfg: Config, st: State)
    requires Ready(cfg, st)
    ensures Agrees(cfg, st) <==>
            && DistinctHeaders(Headers(cfg, st.disk))
            && Opened(cfg, st.disk).lru.slotOf == st.lru.slotOf
            && Opened(cfg, st.disk).lru.keyOf == st.lru.keyOf
  {
    hide HeaderOf, Scanned, Lru.Valid;
    var hs := Headers(cfg, st.disk);
    if Agrees(cfg, st) {
      AgreeingHeadersDistinct(cfg, st);
      ScannedValidIff(hs);
      AgreeingRestart(cfg, st);
      SameSlotsSameKeys(Opened(cfg, st.disk).lru, st.lru, cfg.slotCount);
    } else {
      ScannedShape(hs);
    }
  }

  // ----- which runs keep disk and index in agreement

  /** A step that leaves nothing behind the index's back: a hit, a miss on a key not held, a failed
      read, or a write that succeeded under a non-empty key. */
  ghost predicate Clean(st: State, op: Op, out: Out) {
    match op
    case Get(key, _) => out.Read? && (out.answer != Ok(None) || key !in st.lru.slotOf)
    case Put(key, chunk, _) => out == Told(true) && key != []
    case Remove(key) => key !in st.lru.slotOf
  }

  ghost predicate CleanRun(cfg: Config, st: State, ops: seq<Op>)
    requires Ready(cfg, st)
    decreases |ops|
  {
    ops != [] ==>
      var (next, out) := Step(cfg, st, ops[0]);
      StepRefines(cfg, st, ops[0]);
      Clean(st, ops[0], out) && CleanRun(cfg, next, ops[1..])
  }

  lemma WrittenHeader(cfg: Config, disk: Disk, slot: nat, key: Utf8, chunk: Chunk, s: nat)
    requires cfg.Valid() && Sized(disk, cfg.slotCount, cfg.chunkSize) && slot < cfg.slotCount && s < cfg.slotCount
    requires |chunk.body| <= cfg.chunkSize && Fits(Header(key, chunk)) && key != []
    ensures var after := HeaderOf(cfg, SlotWritten(cfg, disk, slot, key, chunk), s);
            if s == slot then after.Some? && after.value.key == key else after == HeaderOf(cfg, disk, s)
  {
    var n, size := cfg.slotCount, cfg.chunkSize;
    PutBodyFrame(disk, n, size, slot, chunk.body, s);
    PutHeaderFrame(PutBody(disk, n, size, slot, chunk.body), n, size, slot, Page(Header(key, chunk)), s);
    ParseOfPage(Header(key, chunk), size);
  }

  lemma WrittenAgrees(cfg: Config, st: State, w: Lru, slot: nat, key: Utf8, chunk: Chunk)
    requires Ready(cfg, st) && Agrees(cfg, st)
    requires slot < cfg.slotCount && Renames(st.lru, w, slot, key) && key != []
    requires |chunk.body| <= cfg.chunkSize && Fits(Header(key, chunk))
    requires Ready(cfg, State(w, SlotWritten(cfg, st.disk, slot, key, chunk)))
    ensures Agrees(cfg, State(w, SlotWritten(cfg, st.disk, slot, key, chunk)))
  {
    hide HeaderOf, SlotWritten, Lru.Valid;
    forall s | 0 <= s < cfg.slotCount
      ensures var h := HeaderOf(cfg, SlotWritten(cfg, st.disk, slot, key, chunk), s);
              h.Some? == (s in w.keyOf) && (s in w.keyOf ==> h.value.key == w.keyOf[s])
    {
      WrittenHeader(cfg, st.disk, slot, key, chunk, s);
    }
  }

  lemma PutKeepsAgreement(cfg: Config, st: State, key: Utf8, chunk: Chunk, fault: Option<WriteFault>)
    requires Ready(cfg, st) && Agrees(cfg, st)
    requires key != [] && PutStep(cfg, st.lru, st.disk, key, chunk, fault).2
    ensures var (w, disk, _) := PutStep(cfg, st.lru, st.disk, key, chunk, fault);
            Ready(cfg, State(w, disk)) && Agrees(cfg, State(w, disk))
  {
    hide Agrees, Contents, SlotWritten, Lru.Valid;
    PutRefines(cfg, st.lru, st.disk, key, chunk, fault);
    if key !in st.lru.slotOf {
      ClaimRenames(st.lru, cfg.slotCount, key);
      WrittenAgrees(cfg, st, st.lru.Claim(key).0, st.lru.Claim(key).1.value, key, chunk);
    }
  }

  lemma CleanStepKeeps(cfg: Config, st: State, op: Op)
    requires Ready(cfg, st) && Agrees(cfg, st)
    requires Clean(st, op, Step(cfg, st, op).1)
    ensures Ready(cfg, Step(cfg, st, op).0) && Agrees(cfg, Step(cfg, st, op).0)
  {
    hide Contents, Lru.Valid;
    StepRefines(cfg, st, op);
    match op {
      case Get(_, _) =>
      case Put(key, chunk, fault) => PutKeepsAgreement(cfg, st, key, chunk, fault);
      case Remove(_) =>
    }
  }

  /** After any run of hits, misses, failed reads and successful writes, a restart recovers the key-to-slot map
      the store had. */
  lemma {:induction false} CleanRunSurvivesRestart(cfg: Config, st: State, ops: seq<Op>)
    requires Ready(cfg, st) && Agrees(cfg, st)
    requires CleanRun(cfg, st, ops)
    ensures var last := Run(cfg, st, ops).0;
            && Agrees(cfg, last)
            && DistinctHeaders(Headers(cfg, last.disk))
            && Opened(cfg, last.disk).lru.slotOf == last.lru.slotOf
    decreases |ops|
  {
    hide Agrees, Ready, Step, Contents, CacheStep, Clean;
    if ops == [] {
      RestartRecoversIff(cfg, st);
    } else {
      StepRefines(cfg, st, ops[0]);
      CleanStepKeeps(cfg, st, ops[0]);
      CleanRunSurvivesRestart(cfg, Step(cfg, st, ops[0]).0, ops[1..]);
    }
  }

  /** Some slot's header on disk names `key`. */
  ghost predicate OnDisk(cfg: Config, disk: Disk, key: Key)
    requires Sized(disk, cfg.slotCount, cfg.chunkSize)
  {
    exists s :: 0 <= s < cfg.slotCount && HeaderOf(cfg, disk, s).Some? && HeaderOf(cfg, disk, s).value.key == key
  }

  /** Removal touches no header: a removed key is held again after a restart exactly when a header on
      disk still names it. */
  lemma RemovedKeyReturnsIff(cfg: Config, st: State, key: Utf8)
    requires Ready(cfg, st)
    ensures var after := Step(cfg, st, Remove(key)).0;
            && key !in after.lru.slotOf
            && Ready(cfg, after)
            && (key in Opened(cfg, after.disk).lru.slotOf <==> OnDisk(cfg, st.disk, key))
  {
    StepRefines(cfg, st, Remove(key));
    hide HeaderOf, Scanned;
    ScannedMap(Headers(cfg, st.disk));
  }

  /** So removal is not durable: whenever disk and index agree, a key that was held before it was
      removed is held again after a restart. */
  lemma RemovedKeyReturns(cfg: Config, st: State, key: Utf8)
    requires Ready(cfg, st) && Agrees(cfg, st)
    requires key in st.lru.slotOf
    ensures var after := Step(cfg, st, Remove(key)).0;
            && key !in after.lru.slotOf
            && Sized(after.disk, cfg.slotCount, cfg.chunkSize)
            && DistinctHeaders(Headers(cfg, after.disk))
            && key in Opened(cfg, after.disk).lru.slotOf
  {
    RestartRecoversIff(cfg, st);
  }
}
