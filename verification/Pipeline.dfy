/**
 A scattered PUT's body: frames of any size are cut into windows of the chunk grid, each window is
 uploaded by its own task, tasks finish in any order, and the parts are put back in body order for
 Complete.
 */
module Pipeline {
  import opened Common
  import opened Bytes
  import opened Crc
  import opened Chunks
  import Base64

  // ----- the cut

  function Flatten(s: seq<seq<Byte>>): seq<Byte> {
    if s == [] then [] else s[0] + Flatten(s[1..])
  }

  lemma {:induction false} FlattenNext(s: seq<seq<Byte>>, x: seq<Byte>)
    ensures Flatten(s + [x]) == Flatten(s) + x
  {
    if s == [] {
      assert (s + [x])[1..] == [];
    } else {
      FlattenNext(s[1..], x);
      assert (s + [x])[1..] == s[1..] + [x];
    }
  }

  lemma FlattenFirst(x: seq<Byte>, s: seq<seq<Byte>>)
    ensures Flatten([x] + s) == x + Flatten(s)
  {
    assert ([x] + s)[1..] == s;
  }

  /** Carries what was received and not yet emitted. */
  class WindowSplitter {
    const size: nat
    var carry: seq<seq<Byte>>
    var carried: nat

    ghost predicate Valid()
      reads this
    {
      size > 0 && carried == |Flatten(carry)|
    }

    ghost function Pending(): seq<Byte>
      reads this
    {
      Flatten(carry)
    }

    constructor (chunkSize: nat)
      requires chunkSize > 0
      ensures Valid() && size == chunkSize && Pending() == []
    {
      size, carry, carried := chunkSize, [], 0;
    }

    method Push(bytes: seq<Byte>)
      requires Valid()
      modifies this
      ensures Valid() && Pending() == old(Pending()) + bytes
    {
      if bytes == [] {
        return;
      }
      FlattenNext(carry, bytes);
      carried := carried + |bytes|;
      carry := carry + [bytes];
    }

    /** Concatenate exactly `len` bytes off the front. */
    method DrainExact(len: nat) returns (out: seq<Byte>)
      requires len <= |Flatten(carry)|
      modifies this`carry
      ensures |out| == len && old(Pending()) == out + Pending()
    {
      out := [];
      while |out| < len
        invariant |out| <= len && old(Pending()) == out + Pending()
        decreases len - |out|, |carry|
      {
        var need := len - |out|;
        var head := carry[0];
        carry := carry[1..];
        if |head| <= need {
          out := out + head;
        } else {
          out := out + head[..need];
          FlattenFirst(head[need..], carry);
          carry := [head[need..]] + carry;
        }
      }
    }

    /** One full window, or nothing while fewer bytes than that are held. */
    method TakeWindow() returns (w: Option<seq<Byte>>)
      requires Valid()
      modifies this
      ensures Valid()
      ensures w.Some? <==> |old(Pending())| >= size
      ensures w.Some? ==> |w.value| == size && old(Pending()) == w.value + Pending()
      ensures w.None? ==> Pending() == old(Pending())
    {
      if carried < size {
        return None;
      }
      carried := carried - size;
      if carry != [] && |carry[0]| >= size {
        var head, rest := carry[0], carry[1..];
        if |head| > size {
          FlattenFirst(head[size..], rest);
          carry := [head[size..]] + rest;
        } else {
          carry := rest;
        }
        assert old(Pending()) == head + Flatten(rest);
        assert head == head[..size] + head[size..];
        return Some(head[..size]);
      }
      var window := DrainExact(size);
      w := Some(window);
    }

    /** What is left, once the body has ended. */
    method TakeTail() returns (w: Option<seq<Byte>>)
      requires Valid()
      modifies this
      ensures Valid() && Pending() == []
      ensures w.None? <==> old(Pending()) == []
      ensures w.Some? ==> w.value == old(Pending())
    {
      if carried == 0 {
        return None;
      }
      var len := carried;
      carried := 0;
      var tail := DrainExact(len);
      assert Pending() == [];
      w := Some(tail);
    }
  }

  /** The windows are the object's chunks, all of them. */
  predicate OnGrid(ws: seq<seq<Byte>>, size: nat, body: seq<Byte>)
    requires size > 0
  {
    && |ws| == ChunkCount(size, |body|)
    && forall i :: 0 <= i < |ws| ==> ws[i] == ChunkBody(body, size, i)
  }

  predicate Full(ws: seq<seq<Byte>>, size: nat) {
    forall i :: 0 <= i < |ws| ==> |ws[i]| == size
  }

  lemma {:induction false} FullLength(ws: seq<seq<Byte>>, size: nat)
    requires Full(ws, size)
    ensures |Flatten(ws)| == ChunkStart(size, |ws|)
  {
    if ws == [] {
      StartsStep(size, 0);
    } else {
      FullLength(ws[1..], size);
      StartsStep(size, |ws| - 1);
    }
  }

  /** Where full windows lie in what they add up to. */
  lemma {:induction false} FullAt(ws: seq<seq<Byte>>, tail: seq<Byte>, size: nat, i: nat)
    requires Full(ws, size) && i < |ws|
    ensures var body := Flatten(ws) + tail;
            ChunkStart(size, i) + size <= |body| && ws[i] == body[ChunkStart(size, i)..ChunkStart(size, i) + size]
    decreases |ws|
  {
    hide ChunkStart;
    var body, rest := Flatten(ws) + tail, Flatten(ws[1..]) + tail;
    assert body == ws[0] + rest;
    if i == 0 {
      StartsStep(size, 0);
    } else {
      FullAt(ws[1..], tail, size, i - 1);
      StartsStep(size, i - 1);
      var at := ChunkStart(size, i - 1);
      assert body[at + size..at + size + size] == rest[at..at + size];
    }
  }

  /** What is dispatched once the rest of the body is `tail`. */
  function WithTail(ws: seq<seq<Byte>>, tail: seq<Byte>): seq<seq<Byte>> {
    if tail == [] then ws else ws + [tail]
  }

  lemma CountIs(size: nat, len: nat, n: nat)
    requires size > 0
    requires n > 0 ==> ChunkStart(size, n - 1) < len
    requires len <= ChunkStart(size, n)
    ensures ChunkCount(size, len) == n
  {
    hide ChunkStart, ChunkCount;
    CountReaches(size, len, n);
    if n > 0 {
      CountReaches(size, len, n - 1);
    }
  }

  lemma ChunkBodyAt(body: seq<Byte>, size: nat, i: nat)
    requires size > 0 && ChunkStart(size, i) < |body|
    ensures var at := ChunkStart(size, i);
            ChunkBody(body, size, i) == if at + size <= |body| then body[at..at + size] else body[at..]
  {
    hide ChunkStart;
  }

  lemma WindowIsChunk(ws: seq<seq<Byte>>, tail: seq<Byte>, size: nat, i: nat)
    requires size > 0 && Full(ws, size) && |tail| < size && i < |WithTail(ws, tail)|
    ensures WithTail(ws, tail)[i] == ChunkBody(Flatten(ws) + tail, size, i)
  {
    hide ChunkStart, ChunkBody;
    var body := Flatten(ws) + tail;
    if i < |ws| {
      FullAt(ws, tail, size, i);
      ChunkBodyAt(body, size, i);
    } else {
      FullLength(ws, size);
      ChunkBodyAt(body, size, i);
      assert tail == body[ChunkStart(size, i)..];
    }
  }

  lemma WindowCount(ws: seq<seq<Byte>>, tail: seq<Byte>, size: nat)
    requires size > 0 && Full(ws, size) && |tail| < size
    ensures |WithTail(ws, tail)| == ChunkCount(size, |Flatten(ws) + tail|)
  {
    hide ChunkStart, ChunkCount;
    var all := WithTail(ws, tail);
    FullLength(ws, size);
    StartsStep(size, |ws|);
    if |ws| > 0 {
      StartsStep(size, |ws| - 1);
    }
    CountIs(size, |Flatten(ws) + tail|, |all|);
  }

  /** However the body was framed, full windows and a shorter rest are exactly its chunks. */
  lemma WindowsAreChunks(ws: seq<seq<Byte>>, tail: seq<Byte>, size: nat)
    requires size > 0 && Full(ws, size) && |tail| < size
    ensures OnGrid(WithTail(ws, tail), size, Flatten(ws) + tail)
  {
    hide ChunkCount, ChunkBody, Full, Flatten, WithTail;
    WindowCount(ws, tail, size);
    forall i | 0 <= i < |WithTail(ws, tail)|
      ensures WithTail(ws, tail)[i] == ChunkBody(Flatten(ws) + tail, size, i)
    {
      WindowIsChunk(ws, tail, size, i);
    }
  }

  /** The plan's window count is all a body's length is held to: two lengths pass for one another
      exactly when they reach the same chunks. */
  lemma SameCountIff(size: nat, promised: nat, len: nat)
    requires size > 0
    ensures ChunkCount(size, promised) == ChunkCount(size, len)
            <==> forall k: nat :: ChunkStart(size, k) < promised <==> ChunkStart(size, k) < len
  {
    hide ChunkStart, ChunkCount;
    forall k: nat
      ensures k < ChunkCount(size, promised) <==> ChunkStart(size, k) < promised
      ensures k < ChunkCount(size, len) <==> ChunkStart(size, k) < len
    {
      CountReaches(size, promised, k);
      CountReaches(size, len, k);
    }
    var a, b := ChunkCount(size, promised), ChunkCount(size, len);
    if a < b {
      assert !(ChunkStart(size, a) < promised) && ChunkStart(size, a) < len;
    } else if b < a {
      assert ChunkStart(size, b) < promised && !(ChunkStart(size, b) < len);
    }
  }

  /** In particular, with chunks of more than one byte, a body one byte into its last chunk passes for
      one that fills it, and the other way round. */
  lemma ShortTailUnnoticed(size: nat, k: nat)
    requires size > 1
    ensures ChunkStart(size, k) + 1 < ChunkStart(size, k + 1)
    ensures ChunkCount(size, ChunkStart(size, k) + 1) == ChunkCount(size, ChunkStart(size, k + 1)) == k + 1
  {
    hide ChunkStart, ChunkCount;
    StartsStep(size, k);
    CountIs(size, ChunkStart(size, k) + 1, k + 1);
    CountIs(size, ChunkStart(size, k + 1), k + 1);
  }

  // ----- the parts, in any order

  /** A finished upload. */
  datatype DonePart = DonePart(number: nat, digest: Hasher)

  function Insert(s: seq<DonePart>, p: DonePart): (r: seq<DonePart>)
    ensures |r| == |s| + 1
    ensures forall q :: q in r <==> q == p || q in s
  {
    if s == [] then [p]
    else if p.number <= s[0].number then [p] + s
    else
      var rest := Insert(s[1..], p);
      assert forall q :: q in s <==> q == s[0] || q in s[1..];
      [s[0]] + rest
  }

  /** The parts sorted by part number. */
  function ByNumber(parts: seq<DonePart>): (r: seq<DonePart>)
    ensures |r| == |parts|
    ensures forall q :: q in r <==> q in parts
  {
    if parts == [] then []
    else
      assert forall q :: q in parts <==> q == parts[|parts| - 1] || q in parts[..|parts| - 1];
      Insert(ByNumber(parts[..|parts| - 1]), parts[|parts| - 1])
  }

  ghost predicate Ascending(s: seq<DonePart>) {
    forall i, j :: 0 <= i < j < |s| ==> s[i].number < s[j].number
  }

  ghost predicate DistinctNumbers(s: seq<DonePart>) {
    forall i, j :: 0 <= i < j < |s| ==> s[i].number != s[j].number
  }

  lemma {:induction false} InsertAscending(s: seq<DonePart>, p: DonePart)
    requires Ascending(s) && forall q :: q in s ==> q.number != p.number
    ensures Ascending(Insert(s, p))
  {
    if s != [] && s[0].number < p.number {
      InsertAscending(s[1..], p);
      var rest := Insert(s[1..], p);
      assert forall i :: 0 <= i < |rest| ==> rest[i] in rest;
      assert forall q :: q in s[1..] ==> s[0].number < q.number;
    }
  }

  lemma {:induction false} ByNumberAscending(parts: seq<DonePart>)
    requires DistinctNumbers(parts)
    ensures Ascending(ByNumber(parts))
  {
    if parts != [] {
      ByNumberAscending(parts[..|parts| - 1]);
      InsertAscending(ByNumber(parts[..|parts| - 1]), parts[|parts| - 1]);
    }
  }

  lemma {:induction false} AscendingFrom(s: seq<DonePart>, i: nat)
    requires Ascending(s) && i < |s| && forall q :: q in s ==> q.number >= 1
    ensures s[i].number >= i + 1
  {
    assert s[i] in s;
    if i > 0 {
      AscendingFrom(s, i - 1);
    }
  }

  lemma {:induction false} AscendingUpTo(s: seq<DonePart>, i: nat)
    requires Ascending(s) && i < |s| && forall q :: q in s ==> q.number <= |s|
    ensures s[i].number <= i + 1
    decreases |s| - i
  {
    assert s[i] in s;
    if i < |s| - 1 {
      AscendingUpTo(s, i + 1);
    }
  }

  /** One finished part for every window, and nothing else, in whatever order. */
  ghost predicate OnePartEach(parts: seq<DonePart>, ws: seq<seq<Byte>>) {
    && |parts| == |ws| && DistinctNumbers(parts)
    && (forall p :: p in parts ==> 1 <= p.number <= |ws| && p.digest == HasherOf(ws[p.number - 1]))
  }

  /** Sorted, the part numbers are 1 to n, each once, and the digests are the windows' in order. */
  lemma PartsInOrder(parts: seq<DonePart>, ws: seq<seq<Byte>>)
    requires OnePartEach(parts, ws)
    ensures var ordered := ByNumber(parts);
            && |ordered| == |ws|
            && forall i :: 0 <= i < |ws| ==> ordered[i] == DonePart(i + 1, HasherOf(ws[i]))
  {
    hide HasherOf;
    var ordered := ByNumber(parts);
    ByNumberAscending(parts);
    forall i | 0 <= i < |ws|
      ensures ordered[i] == DonePart(i + 1, HasherOf(ws[i]))
    {
      AscendingFrom(ordered, i);
      AscendingUpTo(ordered, i);
      assert ordered[i] in ordered;
    }
  }

  /** The digests combined in the given order. */
  function Fold(parts: seq<DonePart>): Hasher {
    if parts == [] then NEW_HASHER else Combine(Fold(parts[..|parts| - 1]), parts[|parts| - 1].digest)
  }

  lemma {:induction false} FoldIsHash(ordered: seq<DonePart>, ws: seq<seq<Byte>>)
    requires |ordered| == |ws| && forall i :: 0 <= i < |ws| ==> ordered[i] == DonePart(i + 1, HasherOf(ws[i]))
    ensures Fold(ordered) == HasherOf(Flatten(ws))
  {
    hide HasherOf, Combine;
    if ws == [] {
      HasherOfNothing();
    } else {
      var k := |ws| - 1;
      FoldIsHash(ordered[..k], ws[..k]);
      assert ws == ws[..k] + [ws[k]];
      FlattenNext(ws[..k], ws[k]);
      CombineLaw(Flatten(ws[..k]), ws[k]);
    }
  }

  /** Fold the digests in part order, not in the order the parts finished. */
  method WholeObjectCrc(parts: seq<DonePart>, ghost ws: seq<seq<Byte>>) returns (crc: Word)
    requires OnePartEach(parts, ws)
    ensures crc == Crc32(Flatten(ws))
  {
    hide HasherOf, Combine;
    var ordered := ByNumber(parts);
    var whole := NEW_HASHER;
    for i := 0 to |ordered|
      invariant whole == Fold(ordered[..i])
    {
      assert ordered[..i + 1][..i] == ordered[..i];
      whole := Combine(whole, ordered[i].digest);
    }
    assert ordered[..|ordered|] == ordered;
    PartsInOrder(parts, ws);
    FoldIsHash(ordered, ws);
    HasherOfIsCrc(Flatten(ws));
    crc := whole.crc;
  }

  /** Whatever string a client sends, it passes exactly when it decodes to the body's checksum. */
  lemma ClaimPassesIff(body: seq<Byte>, claimed: string)
    ensures claimed == Base64.Encode(BodyCrc(body)) <==> Base64.Decode(claimed) == Some(BodyCrc(body))
  {
    hide Base64.Encode, Base64.Decode;
    Base64.DecodeOfEncode(BodyCrc(body));
    if Base64.Decode(claimed).Some? {
      Base64.EncodeOfDecode(claimed);
    }
  }

  // ----- the pipeline

  /** Every window is either still being uploaded, by the task of its part number, or done. */
  ghost predicate InFlight(ws: seq<seq<Byte>>, tasks: map<nat, seq<Byte>>, parts: seq<DonePart>) {
    var whole :=
      && DistinctNumbers(parts)
      && (forall p :: p in parts ==>
            1 <= p.number <= |ws| && p.number !in tasks && p.digest == HasherOf(ws[p.number - 1]))
      && (forall k :: k in tasks ==> 1 <= k <= |ws| && tasks[k] == ws[k - 1])
      && |tasks| + |parts| == |ws|;
    whole
  }

  lemma DispatchedInFlight(ws: seq<seq<Byte>>, tasks: map<nat, seq<Byte>>, parts: seq<DonePart>, w: seq<Byte>)
    requires InFlight(ws, tasks, parts)
    ensures InFlight(ws + [w], tasks[|ws| + 1 := w], parts)
  {
    hide HasherOf;
    assert |ws| + 1 !in tasks;
    assert tasks[|ws| + 1 := w].Keys == tasks.Keys + {|ws| + 1};
  }

  lemma JoinedInFlight(ws: seq<seq<Byte>>, tasks: map<nat, seq<Byte>>, parts: seq<DonePart>, k: nat)
    requires InFlight(ws, tasks, parts) && k in tasks
    ensures 1 <= k <= |ws|
    ensures InFlight(ws, tasks - {k}, parts + [DonePart(k, HasherOf(tasks[k]))])
  {
    hide HasherOf, DistinctNumbers;
    var left, done := tasks - {k}, DonePart(k, HasherOf(tasks[k]));
    assert left.Keys == tasks.Keys - {k};
    NumbersStayDistinct(parts, done);
    forall p | p in parts + [done]
      ensures 1 <= p.number <= |ws| && p.number !in left && p.digest == HasherOf(ws[p.number - 1])
    {
      assert p == done || p in parts;
    }
  }

  lemma NumbersStayDistinct(parts: seq<DonePart>, p: DonePart)
    requires DistinctNumbers(parts) && forall q :: q in parts ==> q.number != p.number
    ensures DistinctNumbers(parts + [p])
  {
    assert forall i :: 0 <= i < |parts| ==> parts[i] in parts;
  }

  lemma AllJoined(ws: seq<seq<Byte>>, tasks: map<nat, seq<Byte>>, parts: seq<DonePart>)
    requires InFlight(ws, tasks, parts) && |tasks| == 0
    ensures OnePartEach(parts, ws) && |parts| == |ws|
  {
    hide HasherOf;
  }

  /** More full windows than planned, and a byte beyond them, is too long a body. */
  lemma TooMany(ws: seq<seq<Byte>>, size: nat, planned: nat, len: nat)
    requires size > 0 && Full(ws, size) && |ws| >= planned && |Flatten(ws)| < len
    ensures ChunkCount(size, len) > planned
  {
    hide ChunkStart, ChunkCount;
    FullLength(ws, size);
    StartsMonotone(size, planned, |ws|);
    CountReaches(size, len, planned);
  }

  /** A piece of the body as the client's stream yields it. */
  datatype Frame = Data(bytes: seq<Byte>) | ReadError

  function BodyOf(frames: seq<Frame>): seq<Byte> {
    if frames == [] then []
    else
      var last := frames[|frames| - 1];
      BodyOf(frames[..|frames| - 1]) + if last.Data? then last.bytes else []
  }

  lemma {:induction false} BodyGrows(frames: seq<Frame>, i: nat)
    requires i <= |frames|
    ensures |BodyOf(frames[..i])| <= |BodyOf(frames)|
  {
    if i < |frames| {
      BodyGrows(frames[..|frames| - 1], i);
      assert frames[..|frames| - 1][..i] == frames[..i];
    } else {
      assert frames[..i] == frames;
    }
  }

  datatype Failure = BodyError | TooLong | TooShort | UploadFailed

  class Uploads {
    const size: nat
    const planned: nat
    /** The part numbers whose upload fails. */
    const failing: set<nat>
    const splitter: WindowSplitter
    /** The windows being uploaded, by part number. */
    var tasks: map<nat, seq<Byte>>
    /** The finished parts, in the order they finished. */
    var parts: seq<DonePart>
    var next: nat
    ghost var dispatched: seq<seq<Byte>>

    ghost predicate Valid()
      reads this, splitter
      ensures Valid() ==> size > 0
    {
      var whole :=
        && size > 0 && splitter.Valid() && splitter.size == size
        && next == |dispatched| <= planned && InFlight(dispatched, tasks, parts)
        && (forall p :: p in parts ==> p.number !in failing);
      whole
    }

    /** The windows dispatched so far are full, and with what is held they are `body`. */
    ghost predicate Cut(body: seq<Byte>)
      reads this, splitter
    {
      Full(dispatched, size) && body == Flatten(dispatched) + splitter.Pending()
    }

    /** One of the planned uploads fails. */
    ghost predicate SomeFails() { exists k :: k in failing && 1 <= k <= planned }

    constructor (chunkSize: nat, windows: nat, fails: set<nat>)
      requires chunkSize > 0
      ensures Valid() && size == chunkSize && planned == windows && failing == fails
      ensures dispatched == [] && splitter.Pending() == [] && fresh(splitter)
    {
      size, planned, failing := chunkSize, windows, fails;
      splitter := new WindowSplitter(chunkSize);
      tasks, parts, next, dispatched := map[], [], 0, [];
    }

    /** Start the upload of the next window, if the plan has one more. */
    method Dispatch(window: seq<Byte>) returns (ok: bool)
      requires Valid()
      modifies this
      ensures Valid() && (ok <==> |old(dispatched)| < planned)
      ensures ok ==> dispatched == old(dispatched) + [window]
      ensures !ok ==> dispatched == old(dispatched)
    {
      hide InFlight, WindowSplitter.Valid;
      if next >= planned {
        return false;
      }
      DispatchedInFlight(dispatched, tasks, parts, window);
      next := next + 1;
      tasks := tasks[next := window];
      dispatched := dispatched + [window];
      ok := true;
    }

    /** Collect one task that has ended, whichever it is and however it ended. */
    method Join() returns (ok: bool)
      requires Valid() && tasks != map[]
      modifies this
      ensures ok ==> Valid() && dispatched == old(dispatched) && |tasks| < |old(tasks)|
      ensures !ok ==> SomeFails()
    {
      hide InFlight, WindowSplitter.Valid, HasherOf;
      var k :| k in tasks;
      JoinedInFlight(dispatched, tasks, parts, k);
      if k in failing {
        return false;
      }
      ghost var rest := tasks - {k};
      assert rest.Keys == tasks.Keys - {k};
      parts := parts + [DonePart(k, HasherOf(tasks[k]))];
      tasks := tasks - {k};
      ok := true;
    }

    /** Dispatch every full window held, collecting uploads that happen to have ended. */
    method DrainWindows(ghost body: seq<Byte>) returns (r: Option<Failure>)
      requires Valid() && Cut(body)
      modifies this, splitter
      ensures r.None? ==> Valid() && Cut(body) && |splitter.Pending()| < size
      ensures r.None? || r == Some(TooLong) || r == Some(UploadFailed)
      ensures r == Some(TooLong) ==> ChunkCount(size, |body|) > planned
      ensures r == Some(UploadFailed) ==> SomeFails()
    {
      hide InFlight, Flatten, WindowSplitter.Valid, WindowSplitter.Pending, ChunkCount, SomeFails;
      var w := splitter.TakeWindow();
      while w.Some?
        invariant Valid() && Full(dispatched, size)
        invariant w.Some? ==> |w.value| == size && body == Flatten(dispatched) + (w.value + splitter.Pending())
        invariant w.None? ==> body == Flatten(dispatched) + splitter.Pending() && |splitter.Pending()| < size
        decreases |splitter.Pending()|, w.Some?
      {
        ghost var before := dispatched;
        var ok := Dispatch(w.value);
        if !ok {
          TooMany(dispatched, size, planned, |body|);
          return Some(TooLong);
        }
        FlattenNext(before, w.value);
        assert body == Flatten(dispatched) + splitter.Pending();
        var collected := Collect();
        if !collected {
          return Some(UploadFailed);
        }
        w := splitter.TakeWindow();
      }
      r := None;
    }

    /** Collect some of the tasks that have ended by now. */
    method Collect() returns (ok: bool)
      requires Valid()
      modifies this
      ensures ok ==> Valid() && dispatched == old(dispatched)
      ensures !ok ==> SomeFails()
    {
      hide Valid, SomeFails;
      var more: bool := *;
      while more && tasks != map[]
        invariant Valid() && dispatched == old(dispatched)
        decreases |tasks|
      {
        var joined := Join();
        if !joined {
          return false;
        }
        more := *;
      }
      ok := true;
    }

    /** Wait for every task. */
    method CollectAll() returns (ok: bool)
      requires Valid()
      modifies this
      ensures ok ==> Valid() && dispatched == old(dispatched) && |tasks| == 0
      ensures !ok ==> SomeFails()
    {
      hide Valid, SomeFails;
      while tasks != map[]
        invariant Valid() && dispatched == old(dispatched)
        decreases |tasks|
      {
        var joined := Join();
        if !joined {
          return false;
        }
      }
      ok := true;
    }

    /** Dispatch what is left of the body, wait for every upload, and compare with the plan. */
    method FinishBody(ghost body: seq<Byte>) returns (r: Option<Failure>)
      requires Valid() && Cut(body) && |splitter.Pending()| < size
      modifies this, splitter
      ensures r.None? ==> OnePartEach(parts, dispatched) && OnGrid(dispatched, size, body) && |parts| == planned
      ensures r.None? ==> Flatten(dispatched) == body && forall p :: p in parts ==> p.number !in failing
      ensures r == Some(TooLong) || r == Some(TooShort) ==> ChunkCount(size, |body|) != planned
      ensures r == Some(UploadFailed) ==> SomeFails()
      ensures r != Some(BodyError)
    {
      hide InFlight, Flatten, WindowSplitter.Valid, WindowSplitter.Pending, ChunkCount, ChunkBody;
      hide OnePartEach, SomeFails;
      ghost var full, rest := dispatched, splitter.Pending();
      WindowsAreChunks(full, rest, size);
      FlattenNext(full, rest);
      var tail := splitter.TakeTail();
      if tail.Some? {
        var ok := Dispatch(tail.value);
        if !ok {
          TooMany(full, size, planned, |body|);
          return Some(TooLong);
        }
      }
      assert dispatched == WithTail(full, rest);
      var ended := CollectAll();
      if !ended {
        return Some(UploadFailed);
      }
      AllJoined(dispatched, tasks, parts);
      if |parts| != planned {
        return Some(TooShort);
      }
      assert rest == [] ==> Flatten(full) + rest == Flatten(full);
      r := None;
    }

    /** Take in one frame and dispatch every full window held. */
    method TakeFrame(bytes: seq<Byte>, ghost body: seq<Byte>) returns (r: Option<Failure>)
      requires Valid() && Cut(body)
      modifies this, splitter
      ensures r.None? ==> Valid() && Cut(body + bytes) && |splitter.Pending()| < size
      ensures r.None? || r == Some(TooLong) || r == Some(UploadFailed)
      ensures r == Some(TooLong) ==> ChunkCount(size, |body + bytes|) > planned
      ensures r == Some(UploadFailed) ==> SomeFails()
    {
      hide InFlight, Flatten, WindowSplitter.Valid, WindowSplitter.Pending, ChunkCount, SomeFails;
      splitter.Push(bytes);
      r := DrainWindows(body + bytes);
    }

    /** Read the body to its end, dispatching every full window on the way. */
    method ReadFrames(frames: seq<Frame>) returns (r: Option<Failure>)
      requires Valid() && dispatched == [] && splitter.Pending() == []
      modifies this, splitter
      ensures r.None? ==> Valid() && Cut(BodyOf(frames)) && |splitter.Pending()| < size && ReadError !in frames
      ensures r == Some(BodyError) ==> ReadError in frames
      ensures r == Some(TooLong) ==> planned != ChunkCount(size, |BodyOf(frames)|)
      ensures r == Some(UploadFailed) ==> SomeFails()
      ensures r != Some(TooShort)
    {
      assert Flatten(dispatched) == [] && BodyOf(frames[..0]) == [];
      assert Valid() && Cut([]) && |splitter.Pending()| < size;
      hide Valid, Cut, WindowSplitter.Pending, ChunkCount, BodyOf, SomeFails;
      for i := 0 to |frames|
        invariant Valid() && Cut(BodyOf(frames[..i])) && |splitter.Pending()| < size
        invariant ReadError !in frames[..i]
      {
        if frames[i].ReadError? {
          return Some(BodyError);
        }
        BodyOfNext(frames, i);
        r := TakeFrame(frames[i].bytes, BodyOf(frames[..i]));
        if r.Some? {
          BodyGrows(frames, i + 1);
          CountGrows(size, |BodyOf(frames[..i + 1])|, |BodyOf(frames)|);
          return;
        }
      }
      assert frames[..|frames|] == frames;
      r := None;
    }

    /** Upload a body however it is framed; uploads end in any order. It works out exactly when the
        body can be read to its end, has the planned number of windows, and none of them fails. */
    method Drive(frames: seq<Frame>) returns (failure: Option<Failure>, crc: Word)
      requires Valid() && dispatched == [] && splitter.Pending() == []
      modifies this, splitter
      ensures failure.None? <==>
                ReadError !in frames && planned == ChunkCount(size, |BodyOf(frames)|) && !SomeFails()
      ensures failure.None? ==>
                && |parts| == planned
                && (forall i :: 0 <= i < planned ==>
                      ByNumber(parts)[i] == DonePart(i + 1, HasherOf(ChunkBody(BodyOf(frames), size, i))))
                && crc == Crc32(BodyOf(frames))
      ensures failure == Some(BodyError) ==> ReadError in frames
      ensures failure == Some(TooLong) || failure == Some(TooShort) ==> planned != ChunkCount(size, |BodyOf(frames)|)
      ensures failure == Some(UploadFailed) ==> SomeFails()
    {
      hide Valid, Cut, Flatten, WindowSplitter.Pending, ChunkCount, ChunkBody, BodyOf;
      hide OnePartEach, HasherOf, Crc32, ByNumber;
      crc := ZERO;
      failure := ReadFrames(frames);
      if failure.None? {
        failure := FinishBody(BodyOf(frames));
      }
      if failure.Some? {
        var why := failure.value;
        assert why.BodyError? || why.TooLong? || why.TooShort? || why.UploadFailed?;
      }
      if failure.None? {
        crc := WholeObjectCrc(parts, dispatched);
        PartsInOrder(parts, dispatched);
        NoneFailed(parts, dispatched, failing);
      }
    }
  }

  /** With a part for every window, none of them failed if none of the parts did. */
  lemma NoneFailed(parts: seq<DonePart>, ws: seq<seq<Byte>>, failing: set<nat>)
    requires OnePartEach(parts, ws) && forall p :: p in parts ==> p.number !in failing
    ensures forall k :: 1 <= k <= |ws| ==> k !in failing
  {
    hide OnePartEach, HasherOf;
    PartsInOrder(parts, ws);
    var ordered := ByNumber(parts);
    forall k | 1 <= k <= |ws|
      ensures k !in failing
    {
      assert ordered[k - 1] in ordered;
    }
  }

  lemma BodyOfNext(frames: seq<Frame>, i: nat)
    requires i < |frames| && frames[i].Data?
    ensures BodyOf(frames[..i + 1]) == BodyOf(frames[..i]) + frames[i].bytes
  {
    assert frames[..i + 1][..i] == frames[..i];
  }

  lemma CountGrows(size: nat, a: nat, b: nat)
    requires size > 0 && a <= b
    ensures ChunkCount(size, a) <= ChunkCount(size, b)
  {
    hide ChunkStart, ChunkCount;
    CountReaches(size, a, ChunkCount(size, b));
    CountReaches(size, b, ChunkCount(size, b));
  }

  /** A PUT of a promised length: plan its windows, drive the body, and hand the parts to Complete in
      body order. It works out exactly when the body can be read, reaches the same chunks as the
      promised length, and no upload fails. */
  method PutBody(size: nat, promised: nat, frames: seq<Frame>, failing: set<nat>)
    returns (failure: Option<Failure>, parts: seq<DonePart>, crc: Word)
    requires size > 0
    ensures failure.None? <==>
              && ReadError !in frames
              && (forall k: nat :: ChunkStart(size, k) < promised <==> ChunkStart(size, k) < |BodyOf(frames)|)
              && (forall k :: k in failing ==> !(1 <= k <= ChunkCount(size, promised)))
    ensures failure.None? ==>
              && |parts| == ChunkCount(size, promised) == ChunkCount(size, |BodyOf(frames)|)
              && (forall i :: 0 <= i < |parts| ==>
                    parts[i] == DonePart(i + 1, HasherOf(ChunkBody(BodyOf(frames), size, i))))
              && crc == Crc32(BodyOf(frames))
  {
    hide ChunkCount, ChunkStart, ChunkBody, BodyOf, Crc32, HasherOf, ByNumber;
    SameCountIff(size, promised, |BodyOf(frames)|);
    var uploads := new Uploads(size, ChunkCount(size, promised), failing);
    failure, crc := uploads.Drive(frames);
    parts := ByNumber(uploads.parts);
  }
}
