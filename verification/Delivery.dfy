/**
 Delivering a byte range into client memory: one disjoint destination window per covering chunk,
 filled in any order, with a digest folded from per-window digests.
 */
module Delivery {
  import opened Common
  import opened Bytes
  import opened Crc
  import opened Chunks

  datatype ChunkWindow = ChunkWindow(idx: nat, dstAt: nat, srcAt: nat, len: nat, whole: bool)

  /** Window `w` carries the bytes `[start + dstAt, +len)` of the object, all of them inside its
      chunk and before `stop`; `whole` says it is the chunk's entire body. */
  ghost predicate Placed(size: nat, objectLen: nat, start: nat, stop: nat, w: ChunkWindow) {
    var lo, at := start + w.dstAt, ChunkStart(size, w.idx);
    && w.len > 0
    && at <= lo && w.srcAt == lo - at
    && lo + w.len <= Min(stop, Min(at + size, objectLen))
    && (w.whole <==> w.srcAt == 0 && lo + w.len == Min(at + size, objectLen))
  }

  /** The destinations lie end to end and fill exactly `n` bytes. */
  ghost predicate Tiled(ws: seq<ChunkWindow>, n: nat) {
    if ws == [] then n == 0
    else
      var w := ws[|ws| - 1];
      w.dstAt + w.len == n && Tiled(ws[..|ws| - 1], w.dstAt)
  }

  /** The windows of `[start, end)`, by chunk in ascending order. */
  ghost predicate Windows(size: nat, objectLen: nat, start: nat, end: nat, ws: seq<ChunkWindow>) {
    var stop := Min(end, objectLen);
    && (forall i :: 0 <= i < |ws| ==> Placed(size, objectLen, start, stop, ws[i]))
    && Tiled(ws, Max(start, stop) - start)
  }

  /** How far the chunks before `k` reach into the range. */
  function Reached(size: nat, start: nat, stop: nat, k: nat): nat {
    Max(start, Min(stop, ChunkStart(size, k))) - start
  }

  function WindowOf(idx: nat, start: nat, bounds: Range, lo: nat, hi: nat): ChunkWindow
    requires start <= lo < hi && bounds.start <= lo
  {
    ChunkWindow(idx, lo - start, lo - bounds.start, hi - lo, lo == bounds.start && hi == bounds.end)
  }

  /** One covering chunk carries the range on from where the chunks before it left off. */
  lemma WindowStep(size: nat, objectLen: nat, start: nat, end: nat, idx: nat)
    requires size > 0
    ensures var stop := Min(end, objectLen);
            match ChunkBounds(size, idx, objectLen)
            case None => Reached(size, start, stop, idx) == Max(start, stop) - start
            case Some(b) =>
              var lo, hi := Max(start, b.start), Min(end, b.end);
              if lo < hi then
                && Placed(size, objectLen, start, stop, WindowOf(idx, start, b, lo, hi))
                && lo - start == Reached(size, start, stop, idx)
                && hi - start == Reached(size, start, stop, idx + 1)
              else Reached(size, start, stop, idx) == Reached(size, start, stop, idx + 1)
  {
    hide ChunkStart;
    StartsStep(size, idx);
  }

  lemma TiledAppend(ws: seq<ChunkWindow>, n: nat, w: ChunkWindow)
    requires Tiled(ws, n) && w.dstAt == n
    ensures Tiled(ws + [w], n + w.len)
  {
    assert (ws + [w])[..|ws|] == ws;
  }

  method ChunkWindows(size: nat, objectLen: nat, start: nat, end: nat) returns (ws: seq<ChunkWindow>)
    requires size > 0
    ensures Windows(size, objectLen, start, end, ws)
  {
    hide ChunkStart, IndexAt, Placed, Tiled;
    var covering := Covering(size, start, end);
    ghost var stop := Min(end, objectLen);
    ws := [];
    CoveringEnds(size, start, end);
    assert Tiled(ws, Reached(size, start, stop, covering.start)) by { TiledNone(0); }
    for idx := covering.start to covering.end
      invariant forall i :: 0 <= i < |ws| ==> Placed(size, objectLen, start, stop, ws[i])
      invariant Tiled(ws, Reached(size, start, stop, idx))
    {
      WindowStep(size, objectLen, start, end, idx);
      var bounds := ChunkBounds(size, idx, objectLen);
      if bounds.None? {
        return;
      }
      var lo, hi := Max(start, bounds.value.start), Min(end, bounds.value.end);
      if lo >= hi {
        continue;
      }
      var w := WindowOf(idx, start, bounds.value, lo, hi);
      TiledAppend(ws, w.dstAt, w);
      ws := ws + [w];
    }
  }

  /** No windows tile nothing, and nothing else. */
  lemma TiledNone(n: nat)
    ensures Tiled([], n) <==> n == 0
  {
  }

  lemma CoveringEnds(size: nat, start: nat, end: nat)
    requires size > 0
    ensures var c := Covering(size, start, end);
            && c.start <= c.end
            && ChunkStart(size, c.start) <= start
            && (start < end ==> end <= ChunkStart(size, c.end))
  {
    hide ChunkStart, IndexAt;
    IndexHolds(size, start);
    if start < end {
      IndexHolds(size, end - 1);
      IndexOf(size, start, IndexAt(size, end - 1));
      StartsStep(size, IndexAt(size, end - 1));
    }
  }

  // ----- windows neither overlap nor leave a gap

  /** The window that destination byte `p` belongs to. */
  ghost function Owner(ws: seq<ChunkWindow>, n: nat, p: nat): (i: nat)
    requires Tiled(ws, n) && p < n
    ensures i < |ws|
    decreases |ws|
  {
    var last := |ws| - 1;
    if ws[last].dstAt <= p then last else Owner(ws[..last], ws[last].dstAt, p)
  }

  /** Each destination byte lies in exactly one window, and no window leaves the destination. */
  lemma {:induction false} OwnerUnique(ws: seq<ChunkWindow>, n: nat, p: nat, i: nat)
    requires Tiled(ws, n) && i < |ws|
    ensures ws[i].dstAt + ws[i].len <= n
    ensures p < n ==> (ws[i].dstAt <= p < ws[i].dstAt + ws[i].len <==> Owner(ws, n, p) == i)
    decreases |ws|
  {
    var last := |ws| - 1;
    if i < last {
      OwnerUnique(ws[..last], ws[last].dstAt, p, i);
    } else if p < ws[last].dstAt && last > 0 {
      assert Owner(ws, n, p) < last;
    }
  }

  // ----- the client's memory

  /** A client segment and the window of it that may be written. */
  class MappedTarget {
    const mapping: array<Byte>
    const windowOffset: nat
    const windowLen: nat

    ghost predicate Valid() { windowOffset + windowLen <= mapping.Length }

    /** `open`: refuses a segment that is too small for the window. */
    constructor (mapping: array<Byte>, windowOffset: nat, windowLen: nat)
      requires windowOffset + windowLen <= mapping.Length
      ensures Valid()
      ensures this.mapping == mapping && this.windowOffset == windowOffset && this.windowLen == windowLen
    {
      this.mapping, this.windowOffset, this.windowLen := mapping, windowOffset, windowLen;
    }

    /** The writable window's bytes. */
    ghost function Window(): seq<Byte>
      requires Valid()
      reads mapping
    {
      mapping[windowOffset..windowOffset + windowLen]
    }

    /** Copy `src` into the window at `at`; nothing else in the segment changes. */
    method CopyIn(at: nat, src: seq<Byte>)
      requires Valid() && at + |src| <= windowLen
      modifies mapping
      ensures forall p :: 0 <= p < mapping.Length ==>
                mapping[p] == if windowOffset + at <= p < windowOffset + at + |src|
                              then src[p - windowOffset - at] else old(mapping[p])
    {
      var base := windowOffset + at;
      for i := 0 to |src|
        invariant forall p :: 0 <= p < mapping.Length ==>
                    mapping[p] == if base <= p < base + i then src[p - base] else old(mapping[p])
      {
        mapping[base + i] := src[i];
      }
    }

    /** The digest of one delivered window. */
    method DigestWindow(at: nat, len: nat) returns (digest: Hasher)
      requires Valid() && at + len <= windowLen
      ensures digest == HasherOf(Window()[at..at + len])
    {
      var bytes := mapping[windowOffset + at..windowOffset + at + len];
      assert bytes == Window()[at..at + len] by {
        ghost var window := Window()[at..at + len];
        assert forall i :: 0 <= i < len ==> bytes[i] == mapping[windowOffset + at + i] == window[i];
      }
      digest := Update(NEW_HASHER, bytes);
    }
  }

  /** The bytes window `w` copies out of its chunk. */
  ghost function Payload(data: seq<Byte>, size: nat, w: ChunkWindow): seq<Byte>
    requires size > 0 && w.srcAt + w.len <= |ChunkBody(data, size, w.idx)|
  {
    ChunkBody(data, size, w.idx)[w.srcAt..w.srcAt + w.len]
  }

  lemma PlacedPayload(data: seq<Byte>, size: nat, start: nat, stop: nat, w: ChunkWindow)
    requires size > 0 && Placed(size, |data|, start, stop, w)
    ensures w.srcAt + w.len <= |ChunkBody(data, size, w.idx)|
    ensures start + w.dstAt + w.len <= |data|
    ensures Payload(data, size, w) == data[start + w.dstAt..start + w.dstAt + w.len]
    ensures w.whole <==> Payload(data, size, w) == ChunkBody(data, size, w.idx)
  {
    hide ChunkStart;
    var at := ChunkStart(size, w.idx);
    var body := data[at..Min(at + size, |data|)];
    assert ChunkBody(data, size, w.idx) == body;
    SliceOfSlice(data, at, Min(at + size, |data|), w.srcAt, w.srcAt + w.len);
    if w.srcAt == 0 && w.len == |body| {
      assert body[0..|body|] == body;
    }
  }

  /** Filling every window at least once, in any order, leaves exactly the requested bytes in the
      client's window and every other byte of the segment as it was. */
  method Deliver(t: MappedTarget, data: seq<Byte>, size: nat, start: nat, end: nat, ws: seq<ChunkWindow>,
                 order: seq<nat>)
    requires t.Valid() && size > 0
    requires start <= end <= |data| && end - start <= t.windowLen
    requires Windows(size, |data|, start, end, ws)
    requires forall i :: 0 <= i < |order| ==> order[i] < |ws|
    requires forall i :: 0 <= i < |ws| ==> i in order
    modifies t.mapping
    ensures forall p :: 0 <= p < t.mapping.Length ==>
              t.mapping[p] == if t.windowOffset <= p < t.windowOffset + (end - start)
                              then data[start + p - t.windowOffset]
                              else old(t.mapping[p])
  {
    hide Placed, Tiled, ChunkBody, Owner;
    var n, off := end - start, t.windowOffset;
    for k := 0 to |order|
      invariant forall p :: 0 <= p < t.mapping.Length ==>
                  t.mapping[p] == if off <= p < off + n && Owner(ws, n, p - off) in order[..k]
                                  then data[start + p - off]
                                  else old(t.mapping[p])
    {
      var w := ws[order[k]];
      PlacedPayload(data, size, start, end, w);
      OwnerUnique(ws, n, 0, order[k]);
      var payload := ChunkBody(data, size, w.idx)[w.srcAt..w.srcAt + w.len];
      label before:
      t.CopyIn(w.dstAt, payload);
      assert order[..k + 1] == order[..k] + [order[k]];
      forall p | 0 <= p < t.mapping.Length
        ensures t.mapping[p] == if off <= p < off + n && Owner(ws, n, p - off) in order[..k + 1]
                                then data[start + p - off]
                                else old(t.mapping[p])
      {
        if off <= p < off + n {
          OwnerUnique(ws, n, p - off, order[k]);
        }
      }
    }
    assert order[..|order|] == order;
  }

  /** Each window starts where the one before it ends, the first at zero, the last ending at `n`. */
  lemma {:induction false} TiledNext(ws: seq<ChunkWindow>, n: nat, k: nat)
    requires Tiled(ws, n) && k < |ws|
    ensures ws[0].dstAt == 0
    ensures ws[k].dstAt + ws[k].len == if k + 1 < |ws| then ws[k + 1].dstAt else n
    ensures ws[k].dstAt + ws[k].len <= n
    decreases |ws|
  {
    var last := |ws| - 1;
    if last > 0 {
      TiledNext(ws[..last], ws[last].dstAt, if k < last then k else 0);
    }
  }

  lemma DigestStep(window: seq<Byte>, at: nat, len: nat)
    requires at + len <= |window|
    ensures Combine(HasherOf(window[..at]), HasherOf(window[at..at + len])) == HasherOf(window[..at + len])
  {
    hide HasherOf, Combine;
    CombineLaw(window[..at], window[at..at + len]);
    assert window[..at] + window[at..at + len] == window[..at + len];
  }

  /** The digest folded from the windows in ascending order is the digest of the whole delivery. */
  method DigestDelivery(t: MappedTarget, ws: seq<ChunkWindow>, n: nat) returns (digest: Hasher)
    requires t.Valid() && Tiled(ws, n) && n <= t.windowLen
    ensures digest == HasherOf(t.Window()[..n])
  {
    hide HasherOf, Combine, Tiled;
    TiledNone(n);
    ghost var window := t.Window();
    digest := NEW_HASHER;
    HasherOfNothing();
    if ws != [] {
      TiledNext(ws, n, 0);
    }
    assert window[..0] == [];
    for k := 0 to |ws|
      invariant k < |ws| ==> ws[k].dstAt <= n
      invariant digest == HasherOf(window[..if k < |ws| then ws[k].dstAt else n])
    {
      var w := ws[k];
      TiledNext(ws, n, k);
      var next := t.DigestWindow(w.dstAt, w.len);
      DigestStep(window, w.dstAt, w.len);
      digest := Combine(digest, next);
    }
  }
}
