/**
 Byte ranges and the chunk grid: which bytes a request selects, which chunks cover them, and what
 each covering chunk contributes.
 */
module Chunks {
  import opened Common
  import opened Bytes

  /** A half-open range. */
  datatype Range = Range(start: nat, end: nat)

  function Min(a: nat, b: nat): nat { if a <= b then a else b }

  function Max(a: nat, b: nat): nat { if a <= b then b else a }

  /** `u64::saturating_add(1)`. */
  function SaturatingSucc(n: U64): U64 { if n == U64_MAX then U64_MAX else n + 1 }

  /** Resolve a byte range (first and last position, or a suffix length) against `len` bytes. */
  function ResolveRange(first: Option<U64>, last: Option<U64>, suffix: Option<U64>, len: U64): Option<Range> {
    match (first, suffix)
    case (Some(f), None) =>
      if f >= len then None
      else
        (match last
         case None => Some(Range(f, len))
         case Some(l) => if l < f then None else Some(Range(f, Min(SaturatingSucc(l), len))))
    case (None, Some(n)) =>
      if n == 0 then None else Some(Range(if n <= len then len - n else 0, len))
    case _ => None
  }

  /** Section 14.1.2 of RFC 9110: the positions a range specifier selects. */
  predicate Selected(first: Option<U64>, last: Option<U64>, suffix: Option<U64>, len: U64, p: nat) {
    && p < len
    && (first.Some? ==> first.value <= p)
    && (first.Some? && last.Some? ==> p <= last.value)
    && (suffix.Some? ==> len - p <= suffix.value)
  }

  /** A specifier of one of the two forms that selects something: an int-range that starts inside
      the representation and does not run backwards, or a suffix of non-zero length. */
  predicate Satisfiable(first: Option<U64>, last: Option<U64>, suffix: Option<U64>, len: U64) {
    if first.Some? then suffix.None? && first.value < len && (last.Some? ==> first.value <= last.value)
    else suffix.Some? && suffix.value > 0
  }

  /** A range resolves exactly when it is satisfiable, and then to exactly the selected positions,
      the last possible position included. */
  lemma ResolvesToSelected(first: Option<U64>, last: Option<U64>, suffix: Option<U64>, len: U64)
    ensures var r := ResolveRange(first, last, suffix, len);
            && (r.Some? <==> Satisfiable(first, last, suffix, len))
            && (r.Some? ==> r.value.start <= r.value.end <= len)
            && (r.Some? ==> forall p: nat :: r.value.start <= p < r.value.end <==>
                  Selected(first, last, suffix, len, p))
  {
  }

  // ----- the chunk grid

  /** The chunk that holds position `p`. */
  function IndexAt(size: nat, p: nat): nat
    requires size > 0
  {
    p / size
  }

  function Covering(size: nat, start: nat, end: nat): Range
    requires size > 0
  {
    if start >= end then Range(IndexAt(size, start), IndexAt(size, start))
    else Range(IndexAt(size, start), IndexAt(size, end - 1) + 1)
  }

  function ChunkCount(size: nat, objectLen: nat): nat
    requires size > 0
  {
    (objectLen + size - 1) / size
  }

  /** Where chunk `index` starts in the object. */
  function ChunkStart(size: nat, index: nat): nat { index * size }

  function ChunkBounds(size: nat, index: nat, objectLen: nat): Option<Range>
    requires size > 0
  {
    var start := ChunkStart(size, index);
    if start >= objectLen then
      if objectLen == 0 && index == 0 then Some(Range(0, 0)) else None
    else Some(Range(start, Min(start + size, objectLen)))
  }

  /** The part of a chunk that starts at object offset `chunkStart` lying in `[from, to)`. */
  function SliceFor(body: seq<Byte>, chunkStart: nat, from: nat, to: nat): seq<Byte> {
    var chunkEnd := chunkStart + |body|;
    var lo, hi := Max(from, chunkStart), Min(to, chunkEnd);
    if lo >= hi then [] else body[lo - chunkStart..hi - chunkStart]
  }

  lemma StartsStep(size: nat, k: nat)
    ensures ChunkStart(size, 0) == 0
    ensures ChunkStart(size, k + 1) == ChunkStart(size, k) + size
  {
  }

  lemma StartsMonotone(size: nat, j: nat, k: nat)
    requires j <= k
    ensures ChunkStart(size, j) <= ChunkStart(size, k)
  {
    assert k * size == j * size + (k - j) * size;
  }

  lemma IndexHolds(size: nat, p: nat)
    requires size > 0
    ensures ChunkStart(size, IndexAt(size, p)) <= p < ChunkStart(size, IndexAt(size, p)) + size
  {
  }

  /** A position lies in or before chunk `k` exactly when it is before that chunk's end. */
  lemma IndexOf(size: nat, p: nat, k: nat)
    requires size > 0
    ensures IndexAt(size, p) <= k <==> p < ChunkStart(size, k) + size
  {
    hide ChunkStart, IndexAt;
    IndexHolds(size, p);
    if IndexAt(size, p) <= k {
      StartsMonotone(size, IndexAt(size, p), k);
    } else {
      StartsMonotone(size, k + 1, IndexAt(size, p));
      StartsStep(size, k);
    }
  }

  /** The bytes of chunk `index` of an object. */
  function ChunkBody(data: seq<Byte>, size: nat, index: nat): seq<Byte>
    requires size > 0
  {
    match ChunkBounds(size, index, |data|)
    case None => []
    case Some(b) => data[b.start..b.end]
  }

  /** What the chunks `[lo, hi)` contribute, side by side. */
  function Assembled(data: seq<Byte>, size: nat, start: nat, end: nat, lo: nat, hi: nat): seq<Byte>
    requires size > 0 && lo <= hi
    decreases hi
  {
    if lo == hi then []
    else
      Assembled(data, size, start, end, lo, hi - 1)
      + SliceFor(ChunkBody(data, size, hi - 1), ChunkStart(size, hi - 1), start, end)
  }

  /** One chunk's contribution is exactly the requested bytes that lie in it. */
  lemma SliceIsPart(data: seq<Byte>, size: nat, start: nat, end: nat, index: nat)
    requires size > 0 && start <= end <= |data|
    ensures var lo, hi := Max(start, ChunkStart(size, index)), Min(end, ChunkStart(size, index) + size);
            SliceFor(ChunkBody(data, size, index), ChunkStart(size, index), start, end) ==
            if lo >= hi then [] else data[lo..hi]
  {
    hide ChunkStart;
    var at := ChunkStart(size, index);
    var lo, hi := Max(start, at), Min(end, at + size);
    if lo < hi {
      var stop := Min(at + size, |data|);
      assert ChunkBody(data, size, index) == data[at..stop];
      SliceOfSlice(data, at, stop, lo - at, hi - at);
    }
  }

  /** The covering chunks are those that start before the range ends and end after it starts. */
  lemma CoveringMeets(size: nat, start: nat, end: nat, k: nat)
    requires size > 0 && start < end
    ensures IndexAt(size, start) <= k <= IndexAt(size, end - 1) <==>
            start < ChunkStart(size, k) + size && ChunkStart(size, k) < end
  {
    hide ChunkStart, IndexAt;
    IndexOf(size, start, k);
    if k > 0 {
      IndexOf(size, end - 1, k - 1);
      StartsStep(size, k - 1);
    } else {
      StartsStep(size, 0);
    }
  }

  lemma {:induction false} AssembledIsPrefix(data: seq<Byte>, size: nat, start: nat, end: nat, first: nat, k: nat)
    requires size > 0 && start < end <= |data| && first <= k
    requires ChunkStart(size, first) <= start < ChunkStart(size, first) + size && ChunkStart(size, k) < end
    ensures start <= Min(end, ChunkStart(size, k) + size)
    ensures Assembled(data, size, start, end, first, k + 1) == data[start..Min(end, ChunkStart(size, k) + size)]
    decreases k
  {
    hide ChunkStart, SliceFor, ChunkBody;
    var lo := ChunkStart(size, k);
    StartsMonotone(size, first, k);
    SliceIsPart(data, size, start, end, k);
    if k > first {
      StartsStep(size, k - 1);
      AssembledIsPrefix(data, size, start, end, first, k - 1);
      StartsMonotone(size, first + 1, k);
      StartsStep(size, first);
    }
  }

  lemma CoveringAssembles(data: seq<Byte>, size: nat, start: nat, end: nat)
    requires size > 0 && start < end <= |data|
    ensures IndexAt(size, start) <= IndexAt(size, end - 1)
    ensures Assembled(data, size, start, end, IndexAt(size, start), IndexAt(size, end - 1) + 1) == data[start..end]
  {
    hide ChunkStart, IndexAt, Assembled;
    var first, last := IndexAt(size, start), IndexAt(size, end - 1);
    IndexHolds(size, start);
    IndexHolds(size, end - 1);
    IndexOf(size, start, last);
    AssembledIsPrefix(data, size, start, end, first, last);
  }

  /** Concatenating the slices of the covering chunks gives back exactly the requested bytes, and
      no other chunk contributes a byte. */
  lemma CoveringReproduces(data: seq<Byte>, size: nat, start: nat, end: nat)
    requires size > 0 && start <= end <= |data|
    ensures var c := Covering(size, start, end);
            && c.start <= c.end
            && Assembled(data, size, start, end, c.start, c.end) == data[start..end]
            && (forall k: nat :: k < c.start || c.end <= k ==>
                  SliceFor(ChunkBody(data, size, k), ChunkStart(size, k), start, end) == [])
  {
    hide ChunkStart, IndexAt, SliceFor, ChunkBody;
    if start < end {
      CoveringAssembles(data, size, start, end);
    }
    var c := Covering(size, start, end);
    forall k: nat | k < c.start || c.end <= k
      ensures SliceFor(ChunkBody(data, size, k), ChunkStart(size, k), start, end) == []
    {
      SliceIsPart(data, size, start, end, k);
      if start < end {
        CoveringMeets(size, start, end, k);
      }
    }
  }

  /** The same for a byte-range request: what a satisfiable range selects is what the covering
      chunks reproduce. */
  lemma RangeReproduced(data: seq<Byte>, size: nat, first: Option<U64>, last: Option<U64>, suffix: Option<U64>)
    requires size > 0 && |data| <= U64_MAX
    requires Satisfiable(first, last, suffix, |data|)
    ensures var r := ResolveRange(first, last, suffix, |data|);
            && r.Some? && r.value.start <= r.value.end <= |data|
            && var c := Covering(size, r.value.start, r.value.end);
               && c.start <= c.end
               && Assembled(data, size, r.value.start, r.value.end, c.start, c.end) == data[r.value.start..r.value.end]
               && (forall p: nat :: r.value.start <= p < r.value.end <==> Selected(first, last, suffix, |data|, p))
  {
    ResolvesToSelected(first, last, suffix, |data|);
    var r := ResolveRange(first, last, suffix, |data|).value;
    CoveringReproduces(data, size, r.start, r.end);
  }

  /** The count reaches exactly the chunks that start inside the object. */
  lemma CountReaches(size: nat, objectLen: nat, index: nat)
    requires size > 0
    ensures index < ChunkCount(size, objectLen) <==> ChunkStart(size, index) < objectLen
  {
    hide ChunkStart;
    IndexOf(size, objectLen + size - 1, index);
  }

  /** A chunk has bounds exactly when the count covers it, or it is the empty object's only one. */
  lemma CountMatchesBounds(size: nat, objectLen: nat, index: nat)
    requires size > 0
    ensures ChunkBounds(size, index, objectLen).Some? <==>
            index < ChunkCount(size, objectLen) || (objectLen == 0 && index == 0)
  {
    hide ChunkStart, ChunkCount;
    CountReaches(size, objectLen, index);
    StartsStep(size, 0);
  }

  /** No step of the grid arithmetic leaves `u64`, as long as the object length plus one chunk fits. */
  lemma NoOverflow(size: nat, objectLen: nat, start: nat, end: nat, index: nat)
    requires size > 0 && objectLen + size <= U64_MAX && start <= end <= objectLen
    requires var c := Covering(size, start, end); c.start <= index < c.end
    ensures ChunkStart(size, index) + size <= U64_MAX
    ensures ChunkBounds(size, index, objectLen).Some?
  {
    hide ChunkStart, IndexAt;
    CoveringMeets(size, start, end, index);
  }
}
