/** The 4 KiB page that names a slot's chunk on disk. */
module SlotHeaders {
  import opened Common
  import opened Bytes

  const SLOT_HEADER_BYTES: nat := 4096
  const SLOT_MAGIC: U64 := 0x5041_4345_525f_534c
  const SLOT_FORMAT_VERSION: U32 := 3
  const OFF_MAGIC: nat := 0
  const OFF_VERSION: nat := 8
  const OFF_BODY_LEN: nat := 12
  const OFF_BODY_CRC: nat := 16
  const OFF_KEY_LEN: nat := 20
  const OFF_ETAG_LEN: nat := 22
  const OFF_KEY: nat := 24
  const MAX_ETAG_BYTES: nat := 256
  const MAX_KEY_BYTES: nat := SLOT_HEADER_BYTES - OFF_KEY - MAX_ETAG_BYTES

  datatype SlotHeader = SlotHeader(key: Utf8, bodyLen: U32, bodyCrc: U32, eTag: Option<Utf8>)

  /** Why a page did not yield a header. */
  datatype SlotState = Free | Corrupt | KeyNotUtf8

  /** The ETag bytes a header stores; an absent tag and an empty one store the same bytes. */
  function TagBytes(h: SlotHeader): Utf8 {
    match h.eTag
    case None => []
    case Some(t) => t
  }

  /** The headers `write_to` does not refuse. */
  predicate Fits(h: SlotHeader) {
    |h.key| <= MAX_KEY_BYTES && |TagBytes(h)| <= MAX_ETAG_BYTES
  }

  /** Where the header's last stored byte ends. */
  function Extent(h: SlotHeader): nat {
    OFF_KEY + |h.key| + |TagBytes(h)|
  }

  /** Six fields side by side. */
  function Joined(magic: seq<Byte>, version: seq<Byte>, bodyLen: seq<Byte>, bodyCrc: seq<Byte>, keyLen: seq<Byte>,
                  tagLen: seq<Byte>): (s: seq<Byte>)
    ensures |s| == |magic| + |version| + |bodyLen| + |bodyCrc| + |keyLen| + |tagLen|
  {
    magic + version + bodyLen + bodyCrc + keyLen + tagLen
  }

  /** The fixed 24 bytes at the front of a page. */
  function Fixed(bodyLen: nat, bodyCrc: nat, keyLen: nat, tagLen: nat): (s: seq<Byte>)
    ensures |s| == OFF_KEY
  {
    Joined(Le(8, SLOT_MAGIC), Le(4, SLOT_FORMAT_VERSION), Le(4, bodyLen), Le(4, bodyCrc), Le(2, keyLen), Le(2, tagLen))
  }

  /** The fixed fields, the key, the tag, then zeros to the end of the page. */
  function Page(h: SlotHeader): (page: seq<Byte>)
    requires Fits(h)
    ensures |page| == SLOT_HEADER_BYTES
  {
    Fixed(h.bodyLen, h.bodyCrc, |h.key|, |TagBytes(h)|) + h.key + TagBytes(h) + Zeros(SLOT_HEADER_BYTES - Extent(h))
  }

  function Zeros(n: nat): (z: seq<Byte>)
    ensures |z| == n
  {
    seq(n, _ => 0)
  }

  function Field(src: seq<Byte>, at: nat, width: nat): nat
    requires at + width <= |src|
  {
    FromLe(src[at..at + width])
  }

  /** Read a header out of a page, or say why it is not one. */
  function Parse(src: seq<Byte>, capacity: nat): Result<SlotHeader, SlotState>
    requires |src| >= SLOT_HEADER_BYTES
  {
    PowersOf256();
    var magic := Field(src, OFF_MAGIC, 8);
    var version := Field(src, OFF_VERSION, 4);
    if magic != SLOT_MAGIC || version != SLOT_FORMAT_VERSION then Err(Free)
    else
      var bodyLen := Field(src, OFF_BODY_LEN, 4);
      var bodyCrc := Field(src, OFF_BODY_CRC, 4);
      var keyLen := Field(src, OFF_KEY_LEN, 2);
      if keyLen == 0 || keyLen > MAX_KEY_BYTES || bodyLen > capacity then Err(Corrupt)
      else
        var key := src[OFF_KEY..OFF_KEY + keyLen];
        if !ValidUtf8(key) then Err(KeyNotUtf8)
        else
          var tagLen := Field(src, OFF_ETAG_LEN, 2);
          if tagLen > MAX_ETAG_BYTES then Err(Corrupt)
          else
            var tagAt := OFF_KEY + keyLen;
            if tagLen == 0 then Ok(SlotHeader(key, bodyLen, bodyCrc, None))
            else
              var tag := src[tagAt..tagAt + tagLen];
              if !ValidUtf8(tag) then Err(Corrupt)
              else Ok(SlotHeader(key, bodyLen, bodyCrc, Some(tag)))
  }

  // ----- writing and reading undo each other

  /** Cutting 24 joined bytes at the field offsets gives the fields back, whatever they hold. */
  lemma JoinedSlices(s: seq<Byte>, magic: seq<Byte>, version: seq<Byte>, bodyLen: seq<Byte>, bodyCrc: seq<Byte>,
                     keyLen: seq<Byte>, tagLen: seq<Byte>)
    requires |s| >= OFF_KEY
    requires |magic| == 8 && |version| == |bodyLen| == |bodyCrc| == 4 && |keyLen| == |tagLen| == 2
    ensures s[..OFF_KEY] == Joined(magic, version, bodyLen, bodyCrc, keyLen, tagLen) <==>
            && s[OFF_MAGIC..OFF_MAGIC + 8] == magic
            && s[OFF_VERSION..OFF_VERSION + 4] == version
            && s[OFF_BODY_LEN..OFF_BODY_LEN + 4] == bodyLen
            && s[OFF_BODY_CRC..OFF_BODY_CRC + 4] == bodyCrc
            && s[OFF_KEY_LEN..OFF_KEY_LEN + 2] == keyLen
            && s[OFF_ETAG_LEN..OFF_ETAG_LEN + 2] == tagLen
  {
    var j := Joined(magic, version, bodyLen, bodyCrc, keyLen, tagLen);
    if s[..OFF_KEY] == j {
      assert forall i :: 0 <= i < OFF_KEY ==> s[i] == j[i];
    }
    assert s[..OFF_KEY] ==
           Joined(s[OFF_MAGIC..OFF_MAGIC + 8], s[OFF_VERSION..OFF_VERSION + 4], s[OFF_BODY_LEN..OFF_BODY_LEN + 4],
                  s[OFF_BODY_CRC..OFF_BODY_CRC + 4], s[OFF_KEY_LEN..OFF_KEY_LEN + 2],
                  s[OFF_ETAG_LEN..OFF_ETAG_LEN + 2]);
  }

  lemma FixedFields(src: seq<Byte>, bodyLen: U32, bodyCrc: U32, keyLen: U16, tagLen: U16)
    requires |src| >= OFF_KEY
    requires src[..OFF_KEY] == Fixed(bodyLen, bodyCrc, keyLen, tagLen)
    ensures Field(src, OFF_MAGIC, 8) == SLOT_MAGIC && Field(src, OFF_VERSION, 4) == SLOT_FORMAT_VERSION
    ensures Field(src, OFF_BODY_LEN, 4) == bodyLen && Field(src, OFF_BODY_CRC, 4) == bodyCrc
    ensures Field(src, OFF_KEY_LEN, 2) == keyLen && Field(src, OFF_ETAG_LEN, 2) == tagLen
  {
    PowersOf256();
    JoinedSlices(src, Le(8, SLOT_MAGIC), Le(4, SLOT_FORMAT_VERSION), Le(4, bodyLen), Le(4, bodyCrc),
                 Le(2, keyLen), Le(2, tagLen));
    FromLeOfLe(8, SLOT_MAGIC);
    FromLeOfLe(4, SLOT_FORMAT_VERSION);
    FromLeOfLe(4, bodyLen);
    FromLeOfLe(4, bodyCrc);
    FromLeOfLe(2, keyLen);
    FromLeOfLe(2, tagLen);
  }

  lemma PageParts(h: SlotHeader)
    requires Fits(h)
    ensures Page(h)[..OFF_KEY] == Fixed(h.bodyLen, h.bodyCrc, |h.key|, |TagBytes(h)|)
    ensures Page(h)[OFF_KEY..OFF_KEY + |h.key|] == h.key
    ensures Page(h)[OFF_KEY + |h.key|..Extent(h)] == TagBytes(h)
  {
  }

  lemma ParseOfParts(src: seq<Byte>, h: SlotHeader, capacity: nat)
    requires |src| >= SLOT_HEADER_BYTES && Fits(h)
    requires Field(src, OFF_MAGIC, 8) == SLOT_MAGIC && Field(src, OFF_VERSION, 4) == SLOT_FORMAT_VERSION
    requires Field(src, OFF_BODY_LEN, 4) == h.bodyLen && Field(src, OFF_BODY_CRC, 4) == h.bodyCrc
    requires Field(src, OFF_KEY_LEN, 2) == |h.key| && Field(src, OFF_ETAG_LEN, 2) == |TagBytes(h)|
    requires src[OFF_KEY..OFF_KEY + |h.key|] == h.key
    requires src[OFF_KEY + |h.key|..Extent(h)] == TagBytes(h)
    ensures Parse(src, capacity) ==
            if h.key == [] || h.bodyLen > capacity then Err(Corrupt)
            else Ok(h.(eTag := if TagBytes(h) == [] then None else h.eTag))
  {
  }

  /** What reading back a written page gives, for every header that fits: a header with no key,
      or a body the slot cannot hold, reads as damage, and an empty tag reads as none. */
  lemma ParseOfPage(h: SlotHeader, capacity: nat)
    requires Fits(h)
    ensures Parse(Page(h), capacity) ==
            if h.key == [] || h.bodyLen > capacity then Err(Corrupt)
            else Ok(h.(eTag := if TagBytes(h) == [] then None else h.eTag))
  {
    var page := Page(h);
    PageParts(h);
    FixedFields(page, h.bodyLen, h.bodyCrc, |h.key|, |TagBytes(h)|);
    ParseOfParts(page, h, capacity);
  }

  /** The page byte by byte: the magic, the version, four little-endian fields, the key, the tag, and
      zeros to the end. */
  lemma PageLayout(h: SlotHeader)
    requires |h.key| <= 3816 && |TagBytes(h)| <= 256
    ensures var page, keyEnd, tagEnd := Page(h), 24 + |h.key|, 24 + |h.key| + |TagBytes(h)|;
            && |page| == 4096
            && page[0..8] == [0x4c, 0x53, 0x5f, 0x52, 0x45, 0x43, 0x41, 0x50] && page[8..12] == [3, 0, 0, 0]
            && page[12..16] == Le(4, h.bodyLen) && page[16..20] == Le(4, h.bodyCrc)
            && page[20..22] == Le(2, |h.key|) && page[22..24] == Le(2, |TagBytes(h)|)
            && page[24..keyEnd] == h.key && page[keyEnd..tagEnd] == TagBytes(h)
            && (forall i :: tagEnd <= i < 4096 ==> page[i] == 0)
  {
    MagicBytes();
    hide Le, Fixed, Page;
    var page, tag := Page(h), TagBytes(h);
    PageVariable(h);
    FixedIs(h.bodyLen, h.bodyCrc, |h.key|, |tag|);
    JoinedSlices(page, Le(8, SLOT_MAGIC), Le(4, SLOT_FORMAT_VERSION), Le(4, h.bodyLen), Le(4, h.bodyCrc),
                 Le(2, |h.key|), Le(2, |tag|));
  }

  lemma PageVariable(h: SlotHeader)
    requires Fits(h)
    ensures var page, keyEnd, tagEnd := Page(h), 24 + |h.key|, 24 + |h.key| + |TagBytes(h)|;
            && page[..24] == Fixed(h.bodyLen, h.bodyCrc, |h.key|, |TagBytes(h)|)
            && page[24..keyEnd] == h.key && page[keyEnd..tagEnd] == TagBytes(h)
            && (forall i :: tagEnd <= i < 4096 ==> page[i] == 0)
  {
    hide Fixed;
    var fixed, tag := Fixed(h.bodyLen, h.bodyCrc, |h.key|, |TagBytes(h)|), TagBytes(h);
    assert Page(h) == fixed + (h.key + (tag + Zeros(SLOT_HEADER_BYTES - Extent(h))));
  }

  lemma FixedIs(bodyLen: nat, bodyCrc: nat, keyLen: nat, tagLen: nat)
    ensures Fixed(bodyLen, bodyCrc, keyLen, tagLen) ==
            Joined(Le(8, SLOT_MAGIC), Le(4, SLOT_FORMAT_VERSION), Le(4, bodyLen), Le(4, bodyCrc), Le(2, keyLen),
                   Le(2, tagLen))
  {
  }

  lemma MagicBytes()
    ensures Le(8, SLOT_MAGIC) == [0x4c, 0x53, 0x5f, 0x52, 0x45, 0x43, 0x41, 0x50]
    ensures Le(4, SLOT_FORMAT_VERSION) == [3, 0, 0, 0]
  {
    hide Le;
    LeStep(8, SLOT_MAGIC);
    LeStep(7, 0x50_4143_4552_5f53);
    LeStep(6, 0x5041_4345_525f);
    LeStep(5, 0x50_4143_4552);
    LeBytes(0x5041_4345);
    LeBytes(SLOT_FORMAT_VERSION);
  }

  /** A header survives the page exactly when it names a key, its body fits the slot, and its
      tag is absent or non-empty. */
  lemma RoundTripIff(h: SlotHeader, capacity: nat)
    requires Fits(h)
    ensures Parse(Page(h), capacity) == Ok(h) <==> h.key != [] && h.bodyLen <= capacity && h.eTag != Some([])
  {
    ParseOfPage(h, capacity);
  }

  lemma FixedFrom(src: seq<Byte>)
    requires |src| >= OFF_KEY
    requires Field(src, OFF_MAGIC, 8) == SLOT_MAGIC && Field(src, OFF_VERSION, 4) == SLOT_FORMAT_VERSION
    ensures src[..OFF_KEY] ==
            Fixed(Field(src, OFF_BODY_LEN, 4), Field(src, OFF_BODY_CRC, 4), Field(src, OFF_KEY_LEN, 2),
                  Field(src, OFF_ETAG_LEN, 2))
  {
    var (magic, version) := (src[OFF_MAGIC..OFF_VERSION], src[OFF_VERSION..OFF_BODY_LEN]);
    var (bodyLen, bodyCrc) := (src[OFF_BODY_LEN..OFF_BODY_CRC], src[OFF_BODY_CRC..OFF_KEY_LEN]);
    var (keyLen, tagLen) := (src[OFF_KEY_LEN..OFF_ETAG_LEN], src[OFF_ETAG_LEN..OFF_KEY]);
    JoinedSlices(src, magic, version, bodyLen, bodyCrc, keyLen, tagLen);
    LeOfFromLe(magic);
    LeOfFromLe(version);
    LeOfFromLe(bodyLen);
    LeOfFromLe(bodyCrc);
    LeOfFromLe(keyLen);
    LeOfFromLe(tagLen);
  }

  lemma ParsedParts(page: seq<Byte>, capacity: nat)
    requires |page| == SLOT_HEADER_BYTES
    requires Parse(page, capacity).Ok?
    ensures var h := Parse(page, capacity).value;
            && Fits(h)
            && Field(page, OFF_MAGIC, 8) == SLOT_MAGIC && Field(page, OFF_VERSION, 4) == SLOT_FORMAT_VERSION
            && Field(page, OFF_BODY_LEN, 4) == h.bodyLen && Field(page, OFF_BODY_CRC, 4) == h.bodyCrc
            && Field(page, OFF_KEY_LEN, 2) == |h.key| && Field(page, OFF_ETAG_LEN, 2) == |TagBytes(h)|
            && page[OFF_KEY..OFF_KEY + |h.key|] == h.key
            && page[OFF_KEY + |h.key|..Extent(h)] == TagBytes(h)
  {
  }

  lemma Rejoined(s: seq<Byte>, a: nat, b: nat, c: nat)
    requires a <= b <= c <= |s|
    ensures s[..c] == s[..a] + s[a..b] + s[b..c]
  {
  }

  /** Any accepted page holds, up to the end of its tag, the very bytes writing its header
      would put there. */
  lemma AcceptedPageRewrites(page: seq<Byte>, capacity: nat)
    requires |page| == SLOT_HEADER_BYTES
    requires Parse(page, capacity).Ok?
    ensures var h := Parse(page, capacity).value;
            Fits(h) && page[..Extent(h)] == Page(h)[..Extent(h)]
  {
    var h := Parse(page, capacity).value;
    ParsedParts(page, capacity);
    FixedFrom(page);
    PageParts(h);
    Rejoined(page, OFF_KEY, OFF_KEY + |h.key|, Extent(h));
    Rejoined(Page(h), OFF_KEY, OFF_KEY + |h.key|, Extent(h));
  }

  /** A page of zeros, as an unwritten slot reads, is free. */
  lemma ZeroPageIsFree(capacity: nat)
    ensures Parse(Zeros(SLOT_HEADER_BYTES), capacity) == Err(Free)
  {
    var z := Zeros(SLOT_HEADER_BYTES)[OFF_MAGIC..OFF_MAGIC + 8];
    assert z == Zeros(8);
    ZerosRead(8);
  }

  lemma {:induction false} ZerosRead(n: nat)
    ensures FromLe(Zeros(n)) == 0
  {
    if n > 0 {
      assert Zeros(n)[1..] == Zeros(n - 1);
      ZerosRead(n - 1);
    }
  }

  // ----- in place, as the store writes it

  /** `dst[at..at + src.len()].copy_from_slice(src)`. */
  method CopyInto(dst: array<Byte>, at: nat, src: seq<Byte>)
    requires at + |src| <= dst.Length
    modifies dst
    ensures forall j :: 0 <= j < dst.Length ==>
              dst[j] == if at <= j < at + |src| then src[j - at] else old(dst[j])
  {
    for i := 0 to |src|
      invariant forall j :: 0 <= j < dst.Length ==>
                  dst[j] == if at <= j < at + i then src[j - at] else old(dst[j])
    {
      dst[at + i] := src[i];
    }
  }

  /** `done` bytes written, zeros after them. */
  ghost predicate Written(dst: array<Byte>, done: seq<Byte>)
    reads dst
  {
    && |done| <= dst.Length
    && dst[..|done|] == done
    && (forall j :: |done| <= j < dst.Length ==> dst[j] == 0)
  }

  /** Copy the next field behind the `done` bytes already written over a zeroed buffer. */
  method Append(dst: array<Byte>, at: nat, src: seq<Byte>, ghost done: seq<Byte>) returns (ghost all: seq<Byte>)
    requires |done| == at && at + |src| <= dst.Length
    requires Written(dst, done)
    modifies dst
    ensures all == done + src && Written(dst, all)
  {
    CopyInto(dst, at, src);
    all := done + src;
    assert dst[..|all|] == all;
  }

  /** `dst.fill(0)`. */
  method FillZero(dst: array<Byte>)
    modifies dst
    ensures Written(dst, [])
  {
    for i := 0 to dst.Length
      invariant forall j :: 0 <= j < i ==> dst[j] == 0
    {
      dst[i] := 0;
    }
  }

  /** Zero the buffer and write the six fixed fields over its front. */
  method WriteFixed(dst: array<Byte>, magic: seq<Byte>, version: seq<Byte>, bodyLen: seq<Byte>, bodyCrc: seq<Byte>,
                    keyLen: seq<Byte>, tagLen: seq<Byte>)
    requires dst.Length == SLOT_HEADER_BYTES
    requires |magic| == 8 && |version| == |bodyLen| == |bodyCrc| == 4 && |keyLen| == |tagLen| == 2
    modifies dst
    ensures Written(dst, Joined(magic, version, bodyLen, bodyCrc, keyLen, tagLen))
  {
    FillZero(dst);
    ghost var all := [];
    all := Append(dst, OFF_MAGIC, magic, all);
    all := Append(dst, OFF_VERSION, version, all);
    all := Append(dst, OFF_BODY_LEN, bodyLen, all);
    all := Append(dst, OFF_BODY_CRC, bodyCrc, all);
    all := Append(dst, OFF_KEY_LEN, keyLen, all);
    all := Append(dst, OFF_ETAG_LEN, tagLen, all);
  }

  /** Serialise `h` into a page-sized buffer, overwriting whatever it held; a header that does
      not fit is refused and leaves the buffer alone. */
  method WriteTo(h: SlotHeader, dst: array<Byte>) returns (ok: bool)
    requires dst.Length == SLOT_HEADER_BYTES
    modifies dst
    ensures ok <==> |h.key| <= 3816 && (h.eTag.Some? ==> |h.eTag.value| <= 256)
    ensures ok <==> Fits(h)
    ensures dst[..] == if ok then Page(h) else old(dst[..])
  {
    if |h.key| > MAX_KEY_BYTES {
      return false;
    }
    var tag := TagBytes(h);
    if |tag| > MAX_ETAG_BYTES {
      return false;
    }
    WriteFixed(dst, Le(8, SLOT_MAGIC), Le(4, SLOT_FORMAT_VERSION), Le(4, h.bodyLen), Le(4, h.bodyCrc),
               Le(2, |h.key|), Le(2, |tag|));
    ghost var all := Fixed(h.bodyLen, h.bodyCrc, |h.key|, |tag|);
    all := Append(dst, OFF_KEY, h.key, all);
    all := Append(dst, OFF_KEY + |h.key|, tag, all);
    assert dst[..] == Page(h);
    return true;
  }
}
