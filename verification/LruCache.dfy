/**
 The reference the chunk store is measured against: a bounded, first-write-wins map from keys
 to chunks, kept as a list with the least recently used entry first.
 */
module LruCache {
  import opened Common
  import opened Bytes
  import opened LruIndex

  datatype Chunk = Chunk(body: seq<Byte>, eTag: Option<Utf8>)

  /** A held key and the chunk it reads as; `None` is a key that is held but cannot be read. */
  datatype Entry = Entry(key: Key, chunk: Option<Chunk>)

  type Cache = seq<Entry>

  ghost predicate DistinctKeys(c: Cache) {
    forall i, j :: 0 <= i < j < |c| ==> c[i].key != c[j].key
  }

  function Find(c: Cache, key: Key): (r: Option<Entry>)
    ensures r.Some? ==> r.value in c && r.value.key == key
    ensures r.None? ==> forall e :: e in c ==> e.key != key
  {
    if c == [] then None else if c[0].key == key then Some(c[0]) else Find(c[1..], key)
  }

  function Drop(c: Cache, key: Key): Cache {
    if c == [] then [] else if c[0].key == key then Drop(c[1..], key) else [c[0]] + Drop(c[1..], key)
  }

  /** What a caller is told when the disk did not do its part. */
  datatype IoError = IoError

  type Answer = Result<Option<Chunk>, IoError>

  /** A hit moves to the back; an entry that cannot be read is dropped and misses. When the disk
      fails under a held key, the entry moves to the back and stays, and the error is reported. */
  function Get(c: Cache, key: Key, failed: bool): (Cache, Answer) {
    match Find(c, key)
    case None => (c, Ok(None))
    case Some(e) =>
      if failed then (Drop(c, key) + [e], Err(IoError))
      else if e.chunk.None? then (Drop(c, key), Ok(None))
      else (Drop(c, key) + [e], Ok(e.chunk))
  }

  /** What a chunk written under `key` reads back as: the header cannot tell an empty tag from
      none, and cannot name an empty key. */
  function Stored(key: Key, chunk: Chunk): Option<Chunk> {
    if key == [] then None
    else Some(chunk.(eTag := if chunk.eTag == Some([]) then None else chunk.eTag))
  }

  /** Make room for one more entry. */
  function Room(c: Cache, capacity: nat): Cache {
    if |c| >= capacity && c != [] then c[1..] else c
  }

  /** A 4096-byte page has room for 24 fixed bytes, the key, and any tag of up to 256 bytes. */
  predicate Nameable(key: Key, eTag: Option<Utf8>) {
    24 + |key| + 256 <= 4096 && (eTag.Some? ==> |eTag.value| <= 256)
  }

  /** The result is whether the caller is told the write succeeded. A chunk larger than a slot
      is refused outright and a held key is left alone; a key or tag too long for the header, or a
      disk that fails, is found out only after the least recently used entry has made way. */
  function Put(c: Cache, capacity: nat, chunkSize: nat, key: Utf8, chunk: Chunk, failed: bool): (Cache, bool) {
    if |chunk.body| > chunkSize then (c, false)
    else if Find(c, key).Some? then (c, true)
    else if failed || !Nameable(key, chunk.eTag) then (Room(c, capacity), false)
    else (Room(c, capacity) + [Entry(key, Stored(key, chunk))], true)
  }

  function Remove(c: Cache, key: Key): (Cache, bool) {
    (Drop(c, key), Find(c, key).Some?)
  }

  // ----- facts about the list

  lemma {:induction false} DropAbsent(c: Cache, key: Key)
    requires forall i :: 0 <= i < |c| ==> c[i].key != key
    ensures Drop(c, key) == c
  {
    if c != [] {
      DropAbsent(c[1..], key);
    }
  }

  lemma {:induction false} DropAt(c: Cache, i: nat)
    requires DistinctKeys(c)
    requires i < |c|
    ensures Drop(c, c[i].key) == c[..i] + c[i + 1..]
    ensures Find(c, c[i].key) == Some(c[i])
  {
    if i == 0 {
      DropAbsent(c[1..], c[0].key);
    } else {
      DropAt(c[1..], i - 1);
      assert c[..i] + c[i + 1..] == [c[0]] + (c[1..][..i - 1] + c[1..][i..]);
    }
  }

  lemma {:induction false} FindLast(c: Cache, e: Entry)
    requires forall i :: 0 <= i < |c| ==> c[i].key != e.key
    ensures Find(c + [e], e.key) == Some(e)
  {
    if c != [] {
      FindLast(c[1..], e);
      assert (c + [e])[1..] == c[1..] + [e];
    }
  }

  /** A put that is accepted is what the next get answers. */
  lemma PutThenGet(c: Cache, capacity: nat, chunkSize: nat, key: Utf8, chunk: Chunk)
    requires Find(c, key).None? && key != []
    requires |chunk.body| <= chunkSize && |key| <= 3816 && (chunk.eTag.Some? ==> |chunk.eTag.value| <= 256)
    ensures var (d, ok) := Put(c, capacity, chunkSize, key, chunk, false);
            ok && Get(d, key, false).1 == Ok(Some(chunk.(eTag := if chunk.eTag == Some([]) then None else chunk.eTag)))
  {
    hide Find, Drop;
    var room := Room(c, capacity);
    assert forall i :: 0 <= i < |room| ==> room[i] in c;
    FindLast(room, Entry(key, Stored(key, chunk)));
  }
}
