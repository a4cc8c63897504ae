/**
 The disk tier's wire format for a cached value: a chunk, with or without its ETag witness, or an
 object header, whose body another codec writes and reads.
 */
module Codec {
  import opened Common
  import opened Bytes
  import opened LruCache

  const TAG_HEADER: nat := 0
  const TAG_CHUNK: nat := 1
  const TAG_CHUNK_VERSIONED: nat := 2
  const TAG_BYTES: nat := 4
  const LEN_BYTES: nat := 8
  const MAX_DECODABLE_ETAG: nat := 256
  const MAX_DECODABLE_CHUNK: nat := 0x4000_0000

  /** Why bytes are not a value. */
  datatype DecodeError = Truncated | UnknownTag | BodyTooLong | ETagTooLong | ETagNotUtf8 | BadHeader

  /** A decoded value and the bytes left behind it. */
  datatype Decoded<T> = Decoded(value: T, rest: seq<Byte>)

  datatype CacheValue<H> = HeaderValue(header: H) | ChunkValue(chunk: Chunk)

  /** The codec object headers are left to: it writes a header, and reads one off the front. */
  datatype HeaderCodec<!H> = HeaderCodec(encode: H -> seq<Byte>, decode: seq<Byte> -> Option<Decoded<H>>)

  /** It reads back what it wrote, whatever follows, and does not look past what it reads. */
  ghost predicate Lawful<H(!new)>(codec: HeaderCodec<H>) {
    && (forall h, rest :: codec.decode(codec.encode(h) + rest) == Some(Decoded(h, rest)))
    && (forall s, tail :: codec.decode(s).Some? ==>
          codec.decode(s + tail) == Some(Decoded(codec.decode(s).value.value, codec.decode(s).value.rest + tail)))
  }

  /** A length prefix and the bytes it announces. */
  function Prefixed(s: seq<Byte>): seq<Byte> { Le(LEN_BYTES, |s|) + s }

  function Encoding<H>(codec: HeaderCodec<H>, v: CacheValue<H>): seq<Byte> {
    match v
    case HeaderValue(h) => Le(TAG_BYTES, TAG_HEADER) + codec.encode(h)
    case ChunkValue(c) => ChunkEncoding(c)
  }

  function ChunkEncoding(c: Chunk): seq<Byte> {
    match c.eTag
    case None => Le(TAG_BYTES, TAG_CHUNK) + Prefixed(c.body)
    case Some(t) => Le(TAG_BYTES, TAG_CHUNK_VERSIONED) + (Prefixed(t) + Prefixed(c.body))
  }

  function EstimatedSize<H>(codec: HeaderCodec<H>, v: CacheValue<H>): nat {
    match v
    case HeaderValue(h) => TAG_BYTES + |codec.encode(h)|
    case ChunkValue(c) =>
      var tagged := match c.eTag case None => 0 case Some(t) => LEN_BYTES + |t|;
      TAG_BYTES + (tagged + LEN_BYTES + |c.body|)
  }

  /** Take `n` bytes off the front. */
  function Take(s: seq<Byte>, n: nat): Result<Decoded<seq<Byte>>, DecodeError> {
    if n <= |s| then Ok(Decoded(s[..n], s[n..])) else Err(Truncated)
  }

  /** Read a length prefix of at most `max`, then that many bytes. */
  function TakePrefixed(s: seq<Byte>, max: nat, tooLong: DecodeError): Result<Decoded<seq<Byte>>, DecodeError> {
    match Take(s, LEN_BYTES)
    case Err(e) => Err(e)
    case Ok(len) =>
      if FromLe(len.value) > max then Err(tooLong) else Take(len.rest, FromLe(len.value))
  }

  function DecodeBody<H>(s: seq<Byte>, tag: Option<Utf8>): Result<Decoded<CacheValue<H>>, DecodeError> {
    match TakePrefixed(s, MAX_DECODABLE_CHUNK, BodyTooLong)
    case Err(e) => Err(e)
    case Ok(body) => Ok(Decoded(ChunkValue(Chunk(body.value, tag)), body.rest))
  }

  function DecodeVersioned<H>(s: seq<Byte>): Result<Decoded<CacheValue<H>>, DecodeError> {
    match TakePrefixed(s, MAX_DECODABLE_ETAG, ETagTooLong)
    case Err(e) => Err(e)
    case Ok(t) => if ValidUtf8(t.value) then DecodeBody(t.rest, Some(t.value)) else Err(ETagNotUtf8)
  }

  function DecodeHeader<H>(codec: HeaderCodec<H>, s: seq<Byte>): Result<Decoded<CacheValue<H>>, DecodeError> {
    match codec.decode(s)
    case None => Err(BadHeader)
    case Some(d) => Ok(Decoded(HeaderValue(d.value), d.rest))
  }

  function Decoding<H>(codec: HeaderCodec<H>, s: seq<Byte>): Result<Decoded<CacheValue<H>>, DecodeError> {
    match Take(s, TAG_BYTES)
    case Err(e) => Err(e)
    case Ok(tag) =>
      var n := FromLe(tag.value);
      if n == TAG_HEADER then DecodeHeader(codec, tag.rest)
      else if n == TAG_CHUNK then DecodeBody(tag.rest, None)
      else if n == TAG_CHUNK_VERSIONED then DecodeVersioned(tag.rest)
      else Err(UnknownTag)
  }

  /** The values the decoder does not refuse for their size. */
  predicate Decodable<H>(v: CacheValue<H>) {
    v.ChunkValue? ==>
      && |v.chunk.body| <= 0x4000_0000
      && (v.chunk.eTag.Some? ==> |v.chunk.eTag.value| <= 256)
  }

  /** Lengths that a `u64` can carry. */
  predicate Measured<H>(v: CacheValue<H>) {
    v.ChunkValue? ==> |v.chunk.body| <= U64_MAX && (v.chunk.eTag.Some? ==> |v.chunk.eTag.value| <= U64_MAX)
  }

  // ----- laws

  lemma SizeIsExact<H>(codec: HeaderCodec<H>, v: CacheValue<H>)
    ensures |Encoding(codec, v)| == EstimatedSize(codec, v)
  {
  }

  /** The bytes on disk: a tag in four bytes, and each length in eight before the bytes it counts. */
  lemma EncodingLayout<H>(codec: HeaderCodec<H>, v: CacheValue<H>)
    ensures Encoding(codec, v) ==
            match v
            case HeaderValue(h) => [0, 0, 0, 0] + codec.encode(h)
            case ChunkValue(Chunk(body, None)) => [1, 0, 0, 0] + (Le(8, |body|) + body)
            case ChunkValue(Chunk(body, Some(t))) => [2, 0, 0, 0] + ((Le(8, |t|) + t) + (Le(8, |body|) + body))
  {
    hide Le;
    LeBytes(TAG_HEADER);
    LeBytes(TAG_CHUNK);
    LeBytes(TAG_CHUNK_VERSIONED);
  }

  lemma TakeFront(a: seq<Byte>, b: seq<Byte>)
    ensures Take(a + b, |a|) == Ok(Decoded(a, b))
  {
    assert (a + b)[..|a|] == a && (a + b)[|a|..] == b;
  }

  lemma TakePrefixedFront(s: seq<Byte>, rest: seq<Byte>, max: nat, tooLong: DecodeError)
    requires |s| <= U64_MAX
    ensures TakePrefixed(Prefixed(s) + rest, max, tooLong) ==
            if |s| <= max then Ok(Decoded(s, rest)) else Err(tooLong)
  {
    PowersOf256();
    FromLeOfLe(LEN_BYTES, |s|);
    assert Prefixed(s) + rest == Le(LEN_BYTES, |s|) + (s + rest);
    TakeFront(Le(LEN_BYTES, |s|), s + rest);
    TakeFront(s, rest);
  }

  lemma DecodeBodyFront<H>(c: Chunk, rest: seq<Byte>)
    requires |c.body| <= U64_MAX
    ensures DecodeBody<H>(Prefixed(c.body) + rest, c.eTag) ==
            if |c.body| <= MAX_DECODABLE_CHUNK then Ok(Decoded(ChunkValue(c), rest)) else Err(BodyTooLong)
  {
    TakePrefixedFront(c.body, rest, MAX_DECODABLE_CHUNK, BodyTooLong);
  }

  lemma DecodingTagged(tag: nat, rest: seq<Byte>)
    requires tag < 3
    ensures Take(Le(TAG_BYTES, tag) + rest, TAG_BYTES) == Ok(Decoded(Le(TAG_BYTES, tag), rest))
    ensures FromLe(Le(TAG_BYTES, tag)) == tag
  {
    PowersOf256();
    FromLeOfLe(TAG_BYTES, tag);
    TakeFront(Le(TAG_BYTES, tag), rest);
  }

  /** A value survives encoding, whatever bytes follow it, exactly when it is within the decoder's
      bounds; headers always are. */
  lemma RoundTripIff<H(!new)>(codec: HeaderCodec<H>, v: CacheValue<H>, rest: seq<Byte>)
    requires Lawful(codec) && Measured(v)
    ensures Decoding(codec, Encoding(codec, v) + rest) == Ok(Decoded(v, rest)) <==> Decodable(v)
    ensures !Decodable(v) ==> Decoding(codec, Encoding(codec, v) + rest) in {Err(BodyTooLong), Err(ETagTooLong)}
  {
    hide Le, FromLe, TakePrefixed, DecodeBody, Take;
    match v
    case HeaderValue(h) =>
      assert Encoding(codec, v) + rest == Le(TAG_BYTES, TAG_HEADER) + (codec.encode(h) + rest);
      DecodingTagged(TAG_HEADER, codec.encode(h) + rest);
    case ChunkValue(c) =>
      match c.eTag {
        case None =>
          assert ChunkEncoding(c) + rest == Le(TAG_BYTES, TAG_CHUNK) + (Prefixed(c.body) + rest);
          DecodingTagged(TAG_CHUNK, Prefixed(c.body) + rest);
          DecodeBodyFront<H>(c, rest);
        case Some(t) =>
          var body := Prefixed(c.body) + rest;
          assert ChunkEncoding(c) + rest == Le(TAG_BYTES, TAG_CHUNK_VERSIONED) + (Prefixed(t) + body);
          DecodingTagged(TAG_CHUNK_VERSIONED, Prefixed(t) + body);
          TakePrefixedFront(t, body, MAX_DECODABLE_ETAG, ETagTooLong);
          DecodeBodyFront<H>(c, rest);
      }
  }

  lemma TakenIsFront(s: seq<Byte>, n: nat)
    requires Take(s, n).Ok?
    ensures s == Take(s, n).value.value + Take(s, n).value.rest && |Take(s, n).value.value| == n
  {
  }

  lemma TakenPrefixedIsFront(s: seq<Byte>, max: nat, tooLong: DecodeError)
    requires TakePrefixed(s, max, tooLong).Ok?
    ensures var d := TakePrefixed(s, max, tooLong).value;
            s == Prefixed(d.value) + d.rest && |d.value| <= max
  {
    var len := Take(s, LEN_BYTES).value;
    TakenIsFront(s, LEN_BYTES);
    TakenIsFront(len.rest, FromLe(len.value));
    LeOfFromLe(len.value);
    var d := TakePrefixed(s, max, tooLong).value;
    assert Prefixed(d.value) + d.rest == len.value + (d.value + d.rest);
  }

  /** Only encodings decode as chunks: whatever is accepted as one is the encoding of the chunk it
      gives, followed by the bytes left behind. */
  lemma OnlyEncodingsDecode<H>(codec: HeaderCodec<H>, s: seq<Byte>)
    requires Decoding(codec, s).Ok? && Decoding(codec, s).value.value.ChunkValue?
    ensures var d := Decoding(codec, s).value;
            s == ChunkEncoding(d.value.chunk) + d.rest && Decodable(d.value)
  {
    hide Le, FromLe, TakePrefixed, Take;
    var tag := Take(s, TAG_BYTES).value;
    var d := Decoding(codec, s).value;
    TakenIsFront(s, TAG_BYTES);
    LeOfFromLe(tag.value);
    if FromLe(tag.value) == TAG_CHUNK {
      TakenPrefixedIsFront(tag.rest, MAX_DECODABLE_CHUNK, BodyTooLong);
      assert s == Le(TAG_BYTES, TAG_CHUNK) + (Prefixed(d.value.chunk.body) + d.rest);
    } else {
      var t := TakePrefixed(tag.rest, MAX_DECODABLE_ETAG, ETagTooLong).value;
      TakenPrefixedIsFront(tag.rest, MAX_DECODABLE_ETAG, ETagTooLong);
      TakenPrefixedIsFront(t.rest, MAX_DECODABLE_CHUNK, BodyTooLong);
      assert s == Le(TAG_BYTES, TAG_CHUNK_VERSIONED) + (Prefixed(t.value) + (Prefixed(d.value.chunk.body) + d.rest));
    }
  }

  lemma TakeMore(s: seq<Byte>, tail: seq<Byte>, n: nat)
    requires Take(s, n).Ok?
    ensures Take(s + tail, n) == Ok(Decoded(Take(s, n).value.value, Take(s, n).value.rest + tail))
  {
    assert (s + tail)[..n] == s[..n] && (s + tail)[n..] == s[n..] + tail;
  }

  lemma TakePrefixedMore(s: seq<Byte>, tail: seq<Byte>, max: nat, tooLong: DecodeError)
    requires TakePrefixed(s, max, tooLong).Ok?
    ensures var d := TakePrefixed(s, max, tooLong).value;
            TakePrefixed(s + tail, max, tooLong) == Ok(Decoded(d.value, d.rest + tail))
  {
    hide FromLe;
    var len := Take(s, LEN_BYTES).value;
    TakeMore(s, tail, LEN_BYTES);
    TakeMore(len.rest, tail, FromLe(len.value));
  }

  /** The decoder does not look past what it reads. */
  lemma DecodingMore<H(!new)>(codec: HeaderCodec<H>, s: seq<Byte>, tail: seq<Byte>)
    requires Lawful(codec) && Decoding(codec, s).Ok?
    ensures var d := Decoding(codec, s).value;
            Decoding(codec, s + tail) == Ok(Decoded(d.value, d.rest + tail))
  {
    hide FromLe, TakePrefixed, Take;
    var tag := Take(s, TAG_BYTES).value;
    TakeMore(s, tail, TAG_BYTES);
    if FromLe(tag.value) == TAG_CHUNK {
      TakePrefixedMore(tag.rest, tail, MAX_DECODABLE_CHUNK, BodyTooLong);
    } else if FromLe(tag.value) == TAG_CHUNK_VERSIONED {
      TakePrefixedMore(tag.rest, tail, MAX_DECODABLE_ETAG, ETagTooLong);
      var t := TakePrefixed(tag.rest, MAX_DECODABLE_ETAG, ETagTooLong).value;
      TakePrefixedMore(t.rest, tail, MAX_DECODABLE_CHUNK, BodyTooLong);
    }
  }

  /** No strict prefix of an encoding decodes. */
  lemma StrictPrefixFails<H(!new)>(codec: HeaderCodec<H>, v: CacheValue<H>, k: nat)
    requires Lawful(codec) && Decodable(v) && k < |Encoding(codec, v)|
    ensures Decoding(codec, Encoding(codec, v)[..k]).Err?
  {
    hide Encoding, Decoding;
    var whole := Encoding(codec, v);
    assert whole == whole[..k] + whole[k..] && whole == whole + [];
    RoundTripIff(codec, v, []);
    if Decoding(codec, whole[..k]).Ok? {
      DecodingMore(codec, whole[..k], whole[k..]);
    }
  }

  // ----- the codec over a stream

  lemma Regroup(a: seq<Byte>, b: seq<Byte>, c: seq<Byte>)
    ensures (a + b) + c == a + (b + c)
  {
  }

  /** A sink that keeps what is written to it. */
  class Writer {
    var written: seq<Byte>

    constructor ()
      ensures written == []
    {
      written := [];
    }

    method WriteAll(bytes: seq<Byte>)
      modifies this
      ensures written == old(written) + bytes
    {
      written := written + bytes;
    }

    method WritePrefixed(bytes: seq<Byte>)
      modifies this
      ensures written == old(written) + Prefixed(bytes)
    {
      hide Le;
      WriteAll(Le(LEN_BYTES, |bytes|));
      WriteAll(bytes);
      Regroup(old(written), Le(LEN_BYTES, |bytes|), bytes);
    }

    /** Write one value, a field at a time. */
    method Encode<H>(codec: HeaderCodec<H>, v: CacheValue<H>)
      modifies this
      ensures written == old(written) + Encoding(codec, v)
    {
      hide Le, ChunkEncoding;
      match v {
        case HeaderValue(h) =>
          Regroup(written, Le(TAG_BYTES, TAG_HEADER), codec.encode(h));
          WriteAll(Le(TAG_BYTES, TAG_HEADER));
          WriteAll(codec.encode(h));
        case ChunkValue(c) =>
          EncodeChunk(c);
      }
    }

    method EncodeChunk(c: Chunk)
      modifies this
      ensures written == old(written) + ChunkEncoding(c)
    {
      hide Le, Prefixed;
      ghost var before := written;
      match c.eTag {
        case None =>
          WriteAll(Le(TAG_BYTES, TAG_CHUNK));
          WritePrefixed(c.body);
          Regroup(before, Le(TAG_BYTES, TAG_CHUNK), Prefixed(c.body));
        case Some(t) =>
          WriteAll(Le(TAG_BYTES, TAG_CHUNK_VERSIONED));
          WritePrefixed(t);
          WritePrefixed(c.body);
          Regroup(before + Le(TAG_BYTES, TAG_CHUNK_VERSIONED), Prefixed(t), Prefixed(c.body));
          Regroup(before, Le(TAG_BYTES, TAG_CHUNK_VERSIONED), Prefixed(t) + Prefixed(c.body));
      }
    }
  }

  /** A source with the bytes still to be read; a failed read leaves nothing. */
  class Reader {
    var rest: seq<Byte>

    constructor (bytes: seq<Byte>)
      ensures rest == bytes
    {
      rest := bytes;
    }

    method ReadExact(n: nat) returns (r: Result<seq<Byte>, DecodeError>)
      modifies this
      ensures r.Ok? <==> n <= |old(rest)|
      ensures r.Ok? ==> old(rest) == r.value + rest && |r.value| == n
      ensures r.Err? ==> r.error == Truncated
    {
      if n <= |rest| {
        r := Ok(rest[..n]);
        rest := rest[n..];
      } else {
        r := Err(Truncated);
        rest := [];
      }
    }

    /** Read a bounded length, then that many bytes. */
    method ReadPrefixed(max: nat, tooLong: DecodeError) returns (r: Result<seq<Byte>, DecodeError>)
      modifies this
      ensures r.Err? ==> TakePrefixed(old(rest), max, tooLong) == Err(r.error)
      ensures r.Ok? ==> TakePrefixed(old(rest), max, tooLong) == Ok(Decoded(r.value, rest))
    {
      var len := ReadExact(LEN_BYTES);
      if len.Err? {
        return Err(len.error);
      }
      assert Take(old(rest), LEN_BYTES) == Ok(Decoded(len.value, rest)) by { TakeFront(len.value, rest); }
      if FromLe(len.value) > max {
        return Err(tooLong);
      }
      r := ReadExact(FromLe(len.value));
      if r.Ok? {
        TakeFront(r.value, rest);
      }
    }

    /** Read one value, a field at a time. */
    method Decode<H>(codec: HeaderCodec<H>) returns (r: Result<CacheValue<H>, DecodeError>)
      modifies this
      ensures r.Err? ==> Decoding(codec, old(rest)) == Err(r.error)
      ensures r.Ok? ==> Decoding(codec, old(rest)) == Ok(Decoded(r.value, rest))
    {
      hide TakePrefixed, FromLe;
      var tag := ReadExact(TAG_BYTES);
      if tag.Err? {
        return Err(tag.error);
      }
      assert Take(old(rest), TAG_BYTES) == Ok(Decoded(tag.value, rest)) by { TakeFront(tag.value, rest); }
      var n := FromLe(tag.value);
      if n == TAG_HEADER {
        var d := codec.decode(rest);
        if d.None? {
          return Err(BadHeader);
        }
        rest := d.value.rest;
        return Ok(HeaderValue(d.value.value));
      }
      if n != TAG_CHUNK && n != TAG_CHUNK_VERSIONED {
        return Err(UnknownTag);
      }
      var eTag: Option<Utf8> := None;
      if n == TAG_CHUNK_VERSIONED {
        var t := ReadPrefixed(MAX_DECODABLE_ETAG, ETagTooLong);
        if t.Err? {
          return Err(t.error);
        }
        if !ValidUtf8(t.value) {
          return Err(ETagNotUtf8);
        }
        eTag := Some(t.value);
      }
      var body := ReadPrefixed(MAX_DECODABLE_CHUNK, BodyTooLong);
      if body.Err? {
        return Err(body.error);
      }
      r := Ok(ChunkValue(Chunk(body.value, eTag)));
    }
  }
}
