/**
 The delivery-target descriptor: what a client renders for memory it registered itself, and what
 the daemon's parser makes of any descriptor. `None` is the malformed rejection.
 */
module Token {
  import opened Common
  import opened Bytes
  import opened Text

  const MAX_TOKEN_RAILS: nat := 64
  const RAIL_FIELDS: nat := 3
  const GID_BYTES: nat := 16

  type Gid = g: seq<Byte> | |g| == GID_BYTES witness [0, 0, 0, 0, 0, 0, 0, 0, 0, 0, 0, 0, 0, 0, 0, 0]

  datatype Rail = Rail(gid: Gid, qpn: U32, rkey: U32)

  datatype Memory = Shm(name: string) | Nic(baseAddr: U64, rails: seq<Rail>)

  datatype TargetSpec = TargetSpec(memory: Memory, offset: U64, len: U64, checksum: bool)

  /** Two rails that name the same endpoint. */
  predicate SameEndpoint(a: Rail, b: Rail) { a.gid == b.gid && a.qpn == b.qpn }

  predicate DistinctEndpoints(rails: seq<Rail>) {
    forall i, j :: 0 <= i < j < |rails| ==> !SameEndpoint(rails[i], rails[j])
  }

  // ----- rendering

  function HexByte(b: Byte): string { [DigitChar(b / 16), DigitChar(b % 16)] }

  function HexGid(gid: seq<Byte>): string {
    if gid == [] then "" else HexByte(gid[0]) + HexGid(gid[1..])
  }

  function Decimal(n: nat): string { Digits(n, 10) }

  function Hex(n: nat): string { "0x" + Digits(n, 16) }

  function RailFields(r: Rail): seq<string> { [HexGid(r.gid), Decimal(r.qpn), Decimal(r.rkey)] }

  function RailTexts(rails: seq<Rail>): (r: seq<string>)
    ensures |r| == |rails|
    ensures forall i :: 0 <= i < |rails| ==> r[i] == Join(RailFields(rails[i]), '/')
  {
    if rails == [] then []
    else RailTexts(rails[..|rails| - 1]) + [Join(RailFields(rails[|rails| - 1]), '/')]
  }

  function Params(offset: U64, len: U64, checksum: bool, rails: seq<Rail>): seq<string> {
    ["offset" + "=" + Decimal(offset), "len" + "=" + Decimal(len)]
    + (if checksum then [] else ["checksum" + "=" + "none"])
    + ["rails" + "=" + Join(RailTexts(rails), ',')]
  }

  function Render(baseAddr: U64, offset: U64, len: U64, checksum: bool, rails: seq<Rail>): Option<string> {
    if rails == [] || |rails| > MAX_TOKEN_RAILS || len == 0 then None
    else Some("nic:" + Join([Hex(baseAddr)] + Params(offset, len, checksum, rails), ';'))
  }

  /** Render a GID, two digits a byte. */
  method RenderGid(gid: Gid) returns (out: string)
    ensures out == HexGid(gid)
  {
    hide HexGid, HexByte;
    out := "";
    assert gid[0..] == gid;
    for i := 0 to |gid|
      invariant out + HexGid(gid[i..]) == HexGid(gid)
    {
      HexGidFrom(gid, i);
      out := out + HexByte(gid[i]);
    }
    HexGidEnd(gid);
  }

  lemma HexGidFrom(gid: seq<Byte>, i: nat)
    requires i < |gid|
    ensures HexGid(gid[i..]) == HexByte(gid[i]) + HexGid(gid[i + 1..])
  {
    hide HexByte;
    assert gid[i..][1..] == gid[i + 1..];
  }

  lemma HexGidEnd(gid: seq<Byte>)
    ensures HexGid(gid[|gid|..]) == ""
  {
  }

  // ----- parsing

  function ParseU64(value: string): (r: Option<U64>) {
    var v := Trim(value);
    match StripPrefix(v, "0x")
    case Some(hex) => ParseUnsigned(hex, 16, U64_MAX)
    case None => ParseUnsigned(v, 10, U64_MAX)
  }

  function ParseU32Field(value: string): Option<U32> {
    match ParseU64(value)
    case None => None
    case Some(n) => if n < 0x1_0000_0000 then Some(n) else None
  }

  /** Pairs of hexadecimal digits, each read as `u8::from_str_radix` does. A character outside
      ASCII is no digit, so counting characters or bytes makes no difference to what is accepted. */
  function ParsePairs(s: string): (r: Option<seq<Byte>>)
    requires |s| % 2 == 0
    ensures r.Some? ==> |r.value| == |s| / 2
  {
    if s == "" then Some([])
    else
      match (ParseUnsigned(s[..2], 16, 0xFF), ParsePairs(s[2..]))
      case (Some(b), Some(rest)) => Some([b] + rest)
      case _ => None
  }

  function ParseGid(s: string): Option<Gid> {
    if |s| != 2 * GID_BYTES then None else ParsePairs(s)
  }

  function ParseRail(entry: string): Option<Rail> {
    var fields := Split(Trim(entry), '/');
    if |fields| != RAIL_FIELDS then None
    else
      match (ParseGid(fields[0]), ParseU32Field(fields[1]), ParseU32Field(fields[2]))
      case (Some(gid), Some(qpn), Some(rkey)) => Some(Rail(gid, qpn, rkey))
      case _ => None
  }

  predicate Repeats(rails: seq<Rail>, r: Rail) {
    exists i :: 0 <= i < |rails| && SameEndpoint(rails[i], r)
  }

  /** The rails of `entries` behind those already read. */
  function RailsFrom(rails: seq<Rail>, entries: seq<string>): Option<seq<Rail>>
    decreases |entries|
  {
    if entries == [] then Some(rails)
    else if Trim(entries[0]) == "" then None
    else
      match ParseRail(entries[0])
      case None => None
      case Some(rail) =>
        if Repeats(rails, rail) || |rails| + 1 > MAX_TOKEN_RAILS then None
        else RailsFrom(rails + [rail], entries[1..])
  }

  function ParseRails(value: string): Option<seq<Rail>> { RailsFrom([], Split(value, ',')) }

  function ParseChecksum(value: string): Option<bool> {
    var v := Trim(value);
    if v == "crc32" then Some(true) else if v == "none" then Some(false) else None
  }

  /** What the parameters read so far have set. */
  datatype Fields = Fields(offset: Option<U64>, len: Option<U64>, rails: Option<seq<Rail>>, checksum: bool)

  const NO_FIELDS := Fields(None, None, None, true)

  function Absorb(f: Fields, param: string): Option<Fields> {
    match SplitOnce(param, '=')
    case None => None
    case Some((key, value)) => AbsorbPair(f, Trim(key), value)
  }

  function AbsorbPair(f: Fields, key: string, value: string): Option<Fields> {
    if key == "offset" then
      match ParseU64(value) case None => None case Some(n) => Some(f.(offset := Some(n)))
    else if key == "len" then
      match ParseU64(value) case None => None case Some(n) => Some(f.(len := Some(n)))
    else if key == "checksum" then
      match ParseChecksum(value) case None => None case Some(c) => Some(f.(checksum := c))
    else if key == "rails" then
      match ParseRails(value) case None => None case Some(r) => Some(f.(rails := Some(r)))
    else None
  }

  function AbsorbAll(f: Fields, params: seq<string>): Option<Fields>
    decreases |params|
  {
    if params == [] then Some(f)
    else
      match Absorb(f, params[0])
      case None => None
      case Some(g) => AbsorbAll(g, params[1..])
  }

  predicate SafeName(name: string) {
    name != "" && '/' !in name && '\0' !in name && name != "." && name != ".."
  }

  function TrimSlashes(s: string): string {
    if s != "" && s[0] == '/' then TrimSlashes(s[1..]) else s
  }

  /** The checks made once every parameter has been read. */
  function Finish(nic: bool, name: string, f: Fields): Option<TargetSpec> {
    if f.len.None? || f.len.value == 0 then None
    else if !nic && f.rails.Some? then None
    else
      var offset := if f.offset.Some? then f.offset.value else 0;
      if nic then
        match (ParseU64(name), f.rails)
        case (Some(base), Some(rails)) => Some(TargetSpec(Nic(base, rails), offset, f.len.value, f.checksum))
        case _ => None
      else
        var segment := TrimSlashes(name);
        if SafeName(segment) then Some(TargetSpec(Shm(segment), offset, f.len.value, f.checksum)) else None
  }

  function ParseBody(nic: bool, body: string): Option<TargetSpec> {
    var parts := Split(body, ';');
    match AbsorbAll(NO_FIELDS, parts[1..])
    case None => None
    case Some(f) => Finish(nic, Trim(parts[0]), f)
  }

  function Parse(raw: string): Option<TargetSpec> {
    var s := Trim(raw);
    match (StripPrefix(s, "shm:"), StripPrefix(s, "nic:"))
    case (Some(body), _) => ParseBody(false, body)
    case (_, Some(body)) => ParseBody(true, body)
    case _ => None
  }

  /** Read the rails, one entry at a time. */
  method ReadRails(value: string) returns (r: Option<seq<Rail>>)
    ensures r == ParseRails(value)
  {
    var entries := Split(value, ',');
    var rails: seq<Rail> := [];
    var i := 0;
    while i < |entries|
      invariant 0 <= i <= |entries|
      invariant RailsFrom(rails, entries[i..]) == ParseRails(value)
    {
      hide ParseRail, Repeats;
      var entry := entries[i..][0];
      assert entries[i..][1..] == entries[i + 1..];
      if Trim(entry) == "" {
        return None;
      }
      var rail := ParseRail(entry);
      if rail.None? {
        return None;
      }
      if Repeats(rails, rail.value) {
        return None;
      }
      rails := rails + [rail.value];
      if |rails| > MAX_TOKEN_RAILS {
        return None;
      }
      i := i + 1;
    }
    r := Some(rails);
  }

  /** Read the parameters of a descriptor body in the order they come, then check the whole. */
  method ReadBody(nic: bool, body: string) returns (r: Option<TargetSpec>)
    ensures r == ParseBody(nic, body)
  {
    hide Finish, AbsorbPair;
    var parts := Split(body, ';');
    var f := NO_FIELDS;
    var i := 1;
    while i < |parts|
      invariant 1 <= i <= |parts|
      invariant AbsorbAll(f, parts[i..]) == AbsorbAll(NO_FIELDS, parts[1..])
    {
      assert parts[i..][1..] == parts[i + 1..] && parts[i..][0] == parts[i];
      var pair := SplitOnce(parts[i], '=');
      if pair.None? {
        return None;
      }
      var g := AbsorbPair(f, Trim(pair.value.0), pair.value.1);
      if g.None? {
        return None;
      }
      f := g.value;
      i := i + 1;
    }
    r := Finish(nic, Trim(parts[0]), f);
  }

  // ----- what is rendered is what is read

  /** The characters of every rendered piece: none is a space or a separator. */
  predicate IsWord(c: char) { '0' <= c <= '9' || 'a' <= c <= 'z' }

  predicate Word(s: string) {
    forall c :: c in s ==> IsWord(c)
  }

  lemma WordTrims(s: string)
    requires Word(s)
    ensures Trim(s) == s && '/' !in s && ',' !in s && ';' !in s && '=' !in s
  {
    assert NoSpace(s);
    TrimSolid(s);
  }

  lemma ParseOfDecimal(n: U64)
    ensures Word(Decimal(n)) && ParseU64(Decimal(n)) == Some(n)
  {
    hide Digits, ParseUnsigned;
    var s := Decimal(n);
    WordTrims(s);
    ParseOfDigits(n, 10, U64_MAX);
    assert |s| >= 2 ==> s[1] in s;
  }

  lemma ParseOfHex(n: U64)
    ensures Word(Hex(n)) && ParseU64(Hex(n)) == Some(n)
  {
    hide Digits, ParseUnsigned;
    WordTrims(Hex(n));
    ParseOfDigits(n, 16, U64_MAX);
    assert Hex(n)[2..] == Digits(n, 16);
  }

  lemma ParseOfHexByte(b: Byte)
    ensures ParseUnsigned(HexByte(b), 16, 0xFF) == Some(b)
  {
    hide DigitChar;
    var s := HexByte(b);
    var high, low := b / 16, b % 16;
    assert s[..1] == [DigitChar(high)] && s[..1][..0] == "";
    assert FromDigits(s[..1][..0], 16) == Some(0);
    assert FromDigits(s[..1], 16) == Some(high) by { ShiftedZero(16, high); }
    assert FromDigits(s, 16) == Some(Shifted(high, 16, low));
  }

  lemma {:induction false} ParseOfHexGid(gid: seq<Byte>)
    ensures |HexGid(gid)| == 2 * |gid| && Word(HexGid(gid))
    ensures ParsePairs(HexGid(gid)) == Some(gid)
  {
    if gid != [] {
      ParseOfHexGid(gid[1..]);
      var s := HexGid(gid);
      assert s[..2] == HexByte(gid[0]) && s[2..] == HexGid(gid[1..]);
      ParseOfHexByte(gid[0]);
      assert [gid[0]] + gid[1..] == gid;
    }
  }

  /** A character of a rendered rail list. */
  predicate IsRailChar(c: char) { IsWord(c) || c == '/' || c == ',' }

  lemma ParseOfRail(r: Rail)
    ensures var s := Join(RailFields(r), '/');
            && ParseRail(s) == Some(r) && Trim(s) != "" && ',' !in s
            && (forall c :: c in s ==> IsRailChar(c))
  {
    var fields := RailFields(r);
    hide Join, Split, Decimal, HexGid, ParseU64, Trim, ParsePairs;
    ParseOfHexGid(r.gid);
    ParseOfDecimal(r.qpn);
    ParseOfDecimal(r.rkey);
    WordTrims(fields[0]);
    WordTrims(fields[1]);
    WordTrims(fields[2]);
    var s := Join(fields, '/');
    JoinedChars(fields, '/', c => IsWord(c) || c == '/');
    TrimSolid(s);
    SplitOfJoin(fields, '/');
    assert Split("", '/') == [""] by { SplitWhole("", '/'); }
  }

  lemma DistinctStep(before: seq<Rail>, r: Rail, rest: seq<Rail>)
    requires DistinctEndpoints(before)
    ensures before + [r] + rest == before + ([r] + rest)
    ensures if Repeats(before, r) then !DistinctEndpoints(before + ([r] + rest)) else DistinctEndpoints(before + [r])
  {
    var all := before + ([r] + rest);
    if Repeats(before, r) {
      var i :| 0 <= i < |before| && SameEndpoint(before[i], r);
      assert SameEndpoint(all[i], all[|before|]);
    }
  }

  lemma {:induction false} ParseOfRails(before: seq<Rail>, rails: seq<Rail>)
    requires DistinctEndpoints(before) && |before| + |rails| <= MAX_TOKEN_RAILS
    ensures RailsFrom(before, RailTexts(rails)) ==
            if DistinctEndpoints(before + rails) then Some(before + rails) else None
    decreases |rails|
  {
    hide ParseRail, Join, DistinctEndpoints, Repeats;
    if rails == [] {
      assert before + rails == before;
    } else {
      var r, rest := rails[0], rails[1..];
      assert rails == [r] + rest;
      assert RailTexts(rails)[1..] == RailTexts(rest);
      ParseOfRail(r);
      DistinctStep(before, r, rest);
      if !Repeats(before, r) {
        ParseOfRails(before + [r], rest);
      }
    }
  }

  lemma ParseOfRailList(rails: seq<Rail>)
    requires 1 <= |rails| <= MAX_TOKEN_RAILS
    ensures var s := Join(RailTexts(rails), ',');
            && ParseRails(s) == (if DistinctEndpoints(rails) then Some(rails) else None)
            && (forall c :: c in s ==> IsRailChar(c))
  {
    hide ParseRail, Join, Split, RailsFrom;
    var texts := RailTexts(rails);
    forall i | 0 <= i < |rails|
      ensures ',' !in texts[i] && forall c :: c in texts[i] ==> IsRailChar(c)
    {
      ParseOfRail(rails[i]);
    }
    SplitOfJoin(texts, ',');
    JoinedChars(texts, ',', IsRailChar);
    ParseOfRails([], rails);
    assert [] + rails == rails;
  }

  lemma AbsorbOfPair(f: Fields, key: string, value: string)
    requires Word(key)
    ensures Absorb(f, key + "=" + value) == AbsorbPair(f, key, value)
  {
    WordTrims(key);
    SplitOnceFirst(key, '=', value);
  }

  /** The rendered parameters set exactly what was rendered. */
  lemma ParseOfParams(offset: U64, len: U64, checksum: bool, rails: seq<Rail>)
    requires 1 <= |rails| <= MAX_TOKEN_RAILS
    ensures AbsorbAll(NO_FIELDS, Params(offset, len, checksum, rails)) ==
            if DistinctEndpoints(rails) then Some(Fields(Some(offset), Some(len), Some(rails), checksum)) else None
  {
    hide Absorb, ParseU64, ParseRails, Decimal, Join, ParseChecksum, DistinctEndpoints;
    var f1 := NO_FIELDS.(offset := Some(offset));
    var f2 := f1.(len := Some(len));
    var f3 := f2.(checksum := checksum);
    ParseOfDecimal(offset);
    ParseOfDecimal(len);
    AbsorbOfPair(NO_FIELDS, "offset", Decimal(offset));
    AbsorbOfPair(f1, "len", Decimal(len));
    var list := Join(RailTexts(rails), ',');
    ParseOfRailList(rails);
    AbsorbOfPair(f3, "rails", list);
    var last := ["rails" + "=" + list];
    assert AbsorbAll(f3, last) == if DistinctEndpoints(rails) then Some(f3.(rails := Some(rails))) else None by {
      assert last[1..] == [];
    }
    var tail := (if checksum then [] else ["checksum" + "=" + "none"]) + last;
    assert AbsorbAll(f2, tail) == AbsorbAll(f3, last) by {
      if !checksum {
        AbsorbOfPair(f2, "checksum", "none");
        assert ParseChecksum("none") == Some(false) by { ChecksumNone(); }
        assert tail[1..] == last;
      } else {
        assert tail == last;
      }
    }
    var params := Params(offset, len, checksum, rails);
    assert params[1..][1..] == tail;
  }

  lemma ChecksumNone()
    ensures ParseChecksum("none") == Some(false)
  {
    WordTrims("none");
  }

  /** A character of a rendered descriptor's body. */
  predicate IsTokenChar(c: char) { IsRailChar(c) || c == '=' || c == ';' }

  /** A piece between two parameter separators. */
  predicate Piece(s: string) {
    forall c :: c in s ==> IsTokenChar(c) && c != ';'
  }

  lemma PairIsPiece(key: string, value: string)
    requires Word(key)
    requires forall c :: c in value ==> IsRailChar(c)
    ensures Piece(key + "=" + value)
  {
  }

  lemma KeysAreWords()
    ensures Word("offset") && Word("len") && Word("checksum") && Word("none") && Word("rails")
  {
  }

  lemma WordIsRailText(s: string)
    requires Word(s)
    ensures forall c :: c in s ==> IsRailChar(c)
  {
  }

  lemma ParamsArePieces(offset: U64, len: U64, checksum: bool, rails: seq<Rail>)
    requires 1 <= |rails| <= MAX_TOKEN_RAILS
    ensures forall p :: p in Params(offset, len, checksum, rails) ==> Piece(p)
  {
    hide Decimal, Join, Piece, Word, IsRailChar;
    KeysAreWords();
    ParseOfDecimal(offset);
    WordIsRailText(Decimal(offset));
    PairIsPiece("offset", Decimal(offset));
    ParseOfDecimal(len);
    WordIsRailText(Decimal(len));
    PairIsPiece("len", Decimal(len));
    WordIsRailText("none");
    PairIsPiece("checksum", "none");
    ParseOfRailList(rails);
    PairIsPiece("rails", Join(RailTexts(rails), ','));
  }

  /** The descriptor's pieces hold no separator and no space. */
  lemma PartsOfToken(baseAddr: U64, offset: U64, len: U64, checksum: bool, rails: seq<Rail>)
    requires 1 <= |rails| <= MAX_TOKEN_RAILS
    ensures var parts := [Hex(baseAddr)] + Params(offset, len, checksum, rails);
            forall i :: 0 <= i < |parts| ==> Piece(parts[i])
  {
    hide Params, Hex, Word;
    assert Piece(Hex(baseAddr)) by { HexIsPiece(baseAddr); }
    hide Piece;
    ParamsArePieces(offset, len, checksum, rails);
  }

  lemma HexIsPiece(n: U64)
    ensures Piece(Hex(n))
  {
    hide Hex;
    ParseOfHex(n);
  }

  lemma TokenIsSolid(s: string)
    requires forall c :: c in s ==> IsTokenChar(c)
    ensures Trim("nic:" + s) == "nic:" + s
  {
    TrimSolid("nic:" + s);
  }

  lemma DistinctIs(rails: seq<Rail>)
    ensures DistinctEndpoints(rails) <==>
            forall i, j :: 0 <= i < j < |rails| ==> rails[i].gid != rails[j].gid || rails[i].qpn != rails[j].qpn
  {
  }

  /** Parsing what a client renders gives the same address, offset, length, checksum flag and rails,
      exactly when no two rails name one endpoint; otherwise the daemon refuses it. */
  lemma RenderedParsesIff(baseAddr: U64, offset: U64, len: U64, checksum: bool, rails: seq<Rail>)
    ensures var token := Render(baseAddr, offset, len, checksum, rails);
            && (token.Some? <==> 1 <= |rails| <= 64 && len > 0)
            && (token.Some? ==>
                  Parse(token.value) ==
                    if forall i, j :: 0 <= i < j < |rails| ==>
                         rails[i].gid != rails[j].gid || rails[i].qpn != rails[j].qpn
                    then Some(TargetSpec(Nic(baseAddr, rails), offset, len, checksum)) else None)
  {
    DistinctIs(rails);
    hide Params, Join, Split, Trim, Hex, AbsorbAll, ParseU64, DistinctEndpoints;
    if 1 <= |rails| <= MAX_TOKEN_RAILS && len > 0 {
      var parts := [Hex(baseAddr)] + Params(offset, len, checksum, rails);
      var body := Join(parts, ';');
      PartsOfToken(baseAddr, offset, len, checksum, rails);
      JoinedChars(parts, ';', IsTokenChar);
      TokenIsSolid(body);
      SplitOfJoin(parts, ';');
      var token := "nic:" + body;
      assert token[0] == 'n' && token[4..] == body;
      assert parts[1..] == Params(offset, len, checksum, rails);
      ParseOfHex(baseAddr);
      WordTrims(Hex(baseAddr));
      ParseOfParams(offset, len, checksum, rails);
    }
  }

  // ----- what is accepted

  lemma {:induction false} AcceptedRails(before: seq<Rail>, entries: seq<string>)
    requires DistinctEndpoints(before) && |before| <= MAX_TOKEN_RAILS
    ensures var r := RailsFrom(before, entries);
            r.Some? ==> && DistinctEndpoints(r.value) && |r.value| <= MAX_TOKEN_RAILS
                        && |r.value| == |before| + |entries|
    decreases |entries|
  {
    hide ParseRail, Trim;
    if entries != [] && ParseRail(entries[0]).Some? {
      var rail := ParseRail(entries[0]).value;
      if !Repeats(before, rail) && |before| + 1 <= MAX_TOKEN_RAILS {
        AcceptedRails(before + [rail], entries[1..]);
      }
    }
  }

  /** Rails that a parse can have produced. */
  predicate Admissible(rails: seq<Rail>) {
    1 <= |rails| <= MAX_TOKEN_RAILS && DistinctEndpoints(rails)
  }

  lemma {:induction false} AcceptedFields(f: Fields, params: seq<string>)
    requires f.rails.Some? ==> Admissible(f.rails.value)
    ensures var r := AbsorbAll(f, params);
            r.Some? && r.value.rails.Some? ==> Admissible(r.value.rails.value)
    decreases |params|
  {
    hide ParseU64, RailsFrom, DistinctEndpoints, Trim, ParseChecksum;
    if params != [] && Absorb(f, params[0]).Some? {
      var pair := SplitOnce(params[0], '=').value;
      assert DistinctEndpoints([]) by { NoRails(); }
      AcceptedRails([], Split(pair.1, ','));
      AcceptedFields(Absorb(f, params[0]).value, params[1..]);
    }
  }

  lemma NoRails()
    ensures DistinctEndpoints([])
  {
  }

  /** Whatever the daemon accepts has a positive length; a segment name is one path component, with
      no slash and no NUL, and is neither the directory itself nor its parent; and client-registered
      memory can be rendered again, to the same meaning. */
  lemma AcceptedIsMeaningful(raw: string)
    ensures var spec := Parse(raw);
            spec.Some? ==>
              && spec.value.len > 0
              && (spec.value.memory.Shm? ==>
                    var name := spec.value.memory.name;
                    && name != "" && name != "." && name != ".."
                    && (forall i :: 0 <= i < |name| ==> name[i] != '/' && name[i] as int != 0))
              && (spec.value.memory.Nic? ==>
                    var rails := spec.value.memory.rails;
                    && 1 <= |rails| <= 64
                    && (forall i, j :: 0 <= i < j < |rails| ==>
                          rails[i].gid != rails[j].gid || rails[i].qpn != rails[j].qpn)
                    && var token := Render(spec.value.memory.baseAddr, spec.value.offset, spec.value.len,
                                           spec.value.checksum, spec.value.memory.rails);
                       token.Some? && Parse(token.value) == spec)
  {
    var spec := Parse(raw);
    if spec.Some? {
      AcceptedBody(raw);
      if spec.value.memory.Nic? {
        var m := spec.value.memory;
        DistinctIs(m.rails);
        hide Parse, Render;
        RenderedParsesIff(m.baseAddr, spec.value.offset, spec.value.len, spec.value.checksum, m.rails);
      }
    }
  }

  lemma AcceptedBody(raw: string)
    requires Parse(raw).Some?
    ensures var spec := Parse(raw).value;
            && spec.len > 0
            && (spec.memory.Shm? ==> SafeName(spec.memory.name))
            && (spec.memory.Nic? ==> Admissible(spec.memory.rails))
  {
    hide ParseU64, AbsorbAll, Trim, Split, SafeName;
    var s := Trim(raw);
    var body := s[4..];
    AcceptedFields(NO_FIELDS, Split(body, ';')[1..]);
  }

  // ----- parameters commute

  /** The parameter name of `param`, or nothing if it is not a pair. */
  function KeyOf(param: string): Option<string> {
    match SplitOnce(param, '=')
    case None => None
    case Some((key, value)) => Some(Trim(key))
  }

  lemma SwapFirst(f: Fields, p: string, q: string, rest: seq<string>)
    requires KeyOf(p) != KeyOf(q)
    ensures AbsorbAll(f, [p, q] + rest) == AbsorbAll(f, [q, p] + rest)
  {
    hide ParseU64, ParseRails, ParseChecksum, Trim, SplitOnce;
    assert ([p, q] + rest)[1..][1..] == rest && ([q, p] + rest)[1..][1..] == rest;
    assert ([p, q] + rest)[1..][0] == q && ([q, p] + rest)[1..][0] == p;
  }

  /** Exchanging two neighbouring parameters with different names changes nothing. */
  lemma {:induction false} ParametersCommute(f: Fields, a: seq<string>, p: string, q: string, rest: seq<string>)
    requires KeyOf(p) != KeyOf(q)
    ensures AbsorbAll(f, a + [p, q] + rest) == AbsorbAll(f, a + [q, p] + rest)
    decreases |a|
  {
    hide Absorb, KeyOf;
    if a == [] {
      assert a + [p, q] + rest == [p, q] + rest && a + [q, p] + rest == [q, p] + rest;
      SwapFirst(f, p, q, rest);
    } else {
      assert (a + [p, q] + rest)[1..] == a[1..] + [p, q] + rest;
      assert (a + [q, p] + rest)[1..] == a[1..] + [q, p] + rest;
      if Absorb(f, a[0]).Some? {
        ParametersCommute(Absorb(f, a[0]).value, a[1..], p, q, rest);
      }
    }
  }

  // ----- a descriptor without an offset

  /** The parameters of a descriptor, behind its scheme and its name or address. */
  function ParamsOf(raw: string): seq<string> {
    var s := Trim(raw);
    if |s| < 4 then [] else Split(s[4..], ';')[1..]
  }

  predicate NamesOffset(params: seq<string>) {
    exists i :: 0 <= i < |params| && KeyOf(params[i]) == Some("offset")
  }

  /** The offset of an accepted parameter list is missing exactly when no parameter names it. */
  lemma {:induction false} OffsetMissingIff(f: Fields, params: seq<string>)
    requires AbsorbAll(f, params).Some?
    ensures AbsorbAll(f, params).value.offset.None? <==> f.offset.None? && !NamesOffset(params)
    decreases |params|
  {
    hide ParseU64, ParseRails, ParseChecksum, Trim, SplitOnce;
    if params != [] {
      var g := Absorb(f, params[0]).value;
      OffsetMissingIff(g, params[1..]);
      NamesOffsetStep(params);
      assert KeyOf(params[0]) == Some("offset") ==> g.offset.Some?;
      assert KeyOf(params[0]) != Some("offset") ==> g.offset == f.offset;
    }
  }

  lemma NamesOffsetStep(params: seq<string>)
    requires params != []
    ensures NamesOffset(params) <==> KeyOf(params[0]) == Some("offset") || NamesOffset(params[1..])
  {
    hide KeyOf;
    var rest := params[1..];
    assert forall i :: 0 < i < |params| ==> params[i] == rest[i - 1];
    assert forall i :: 0 <= i < |rest| ==> rest[i] == params[i + 1];
  }

  lemma {:induction false} AbsorbLast(f: Fields, params: seq<string>, p: string)
    ensures AbsorbAll(f, params + [p]) ==
            match AbsorbAll(f, params) case None => None case Some(g) => Absorb(g, p)
    decreases |params|
  {
    hide Absorb;
    if params == [] {
      assert (params + [p])[1..] == [];
    } else {
      assert (params + [p])[1..] == params[1..] + [p];
      if Absorb(f, params[0]).Some? {
        AbsorbLast(Absorb(f, params[0]).value, params[1..], p);
      }
    }
  }

  lemma AbsorbZeroOffset(f: Fields)
    ensures Absorb(f, "offset=0") == Some(f.(offset := Some(0)))
  {
    hide Absorb, ParseU64;
    ParseOfDecimal(0);
    assert Decimal(0) == "0";
    assert "offset" + "=" + "0" == "offset=0";
    KeysAreWords();
    AbsorbOfPair(f, "offset", "0");
  }

  lemma ZeroOffsetBody(nic: bool, body: string)
    requires !NamesOffset(Split(body, ';')[1..])
    ensures ParseBody(nic, body + ";offset=0") == ParseBody(nic, body)
  {
    hide Absorb, AbsorbAll, Split, Trim, NamesOffset, ParseU64, SafeName, TrimSlashes;
    var parts, more := Split(body, ';'), Split(body + ";offset=0", ';');
    SplitLast(body, ';', "offset=0");
    assert body + [';'] + "offset=0" == body + ";offset=0";
    assert more[1..] == parts[1..] + ["offset=0"] && more[0] == parts[0];
    AbsorbLast(NO_FIELDS, parts[1..], "offset=0");
    if AbsorbAll(NO_FIELDS, parts[1..]).Some? {
      OffsetMissingIff(NO_FIELDS, parts[1..]);
      AbsorbZeroOffset(AbsorbAll(NO_FIELDS, parts[1..]).value);
    }
  }

  /** Appending to a trimmed descriptor leaves its scheme as it was. */
  lemma SchemeStays(s: string, scheme: string, tail: string)
    requires |scheme| == 4 && ';' !in scheme && tail != "" && tail[0] == ';'
    ensures scheme <= s + tail <==> scheme <= s
    ensures scheme <= s ==> (s + tail)[4..] == s[4..] + tail
  {
    if |s| < 4 {
      assert (s + tail)[|s|] == ';';
      assert scheme[|s|] in scheme;
    }
  }

  /** A descriptor that names no offset, accepted or not, means exactly what it means with an offset
      of zero. */
  lemma MissingOffsetIsZero(raw: string)
    requires !NamesOffset(ParamsOf(raw))
    ensures Parse(Trim(raw) + ";offset=0") == Parse(raw)
  {
    hide ParseBody, Trim, Split, NamesOffset;
    var s := Trim(raw);
    assert NoSpace(";offset=0");
    TrimWithTail(raw, ";offset=0");
    SchemeStays(s, "shm:", ";offset=0");
    SchemeStays(s, "nic:", ";offset=0");
    if "shm:" <= s {
      ZeroOffsetBody(false, s[4..]);
    } else if "nic:" <= s {
      ZeroOffsetBody(true, s[4..]);
    }
  }

  // ----- exactly which segments are accepted

  lemma {:induction false} TrimSlashesAt(name: string, k: nat)
    requires k <= |name| && (forall i :: 0 <= i < k ==> name[i] == '/') && (k < |name| ==> name[k] != '/')
    ensures TrimSlashes(name) == name[k..]
  {
    if k > 0 {
      TrimSlashesAt(name[1..], k - 1);
    } else {
      assert name[0..] == name;
    }
  }

  /** A shared-memory descriptor is its name and its parameters. */
  lemma ParseOfShm(name: string, params: string)
    requires ';' !in name && SolidEnds(name) && params != "" && !IsSpace(params[|params| - 1])
    ensures Parse("shm:" + name + ";" + params) ==
            match AbsorbAll(NO_FIELDS, Split(params, ';')) case None => None case Some(f) => Finish(false, name, f)
  {
    hide AbsorbAll, Split, Trim, Finish, ParseBody, Parse;
    var body := name + [';'] + params;
    assert "shm:" + name + ";" + params == "shm:" + body;
    TrimOfShm(name, params);
    ParseShmBody(body);
    ShmBody(name, params);
  }

  lemma ParseShmBody(body: string)
    requires Trim("shm:" + body) == "shm:" + body
    ensures Parse("shm:" + body) == ParseBody(false, body)
  {
    hide Trim, ParseBody;
    assert ("shm:" + body)[4..] == body;
  }

  lemma TrimOfShm(name: string, params: string)
    requires params != "" && !IsSpace(params[|params| - 1])
    ensures Trim("shm:" + name + ";" + params) == "shm:" + name + ";" + params
  {
    hide Trim;
    var raw := "shm:" + name + ";" + params;
    assert raw[0] == 's' && raw[|raw| - 1] == params[|params| - 1];
    assert "" + raw + "" == raw;
    TrimPadded("", raw, "");
  }

  lemma ShmBody(name: string, params: string)
    requires ';' !in name && SolidEnds(name)
    ensures ParseBody(false, name + [';'] + params) ==
            match AbsorbAll(NO_FIELDS, Split(params, ';')) case None => None case Some(f) => Finish(false, name, f)
  {
    hide AbsorbAll, Split, Trim, Finish;
    assert "" + name + "" == name;
    TrimPadded("", name, "");
    SplitFirst(name, ';', params);
    assert ([name] + Split(params, ';'))[1..] == Split(params, ';');
  }

  lemma AbsorbOfLen(f: Fields, len: U64)
    ensures ';' !in "len=" + Decimal(len)
    ensures Absorb(f, "len=" + Decimal(len)) == Some(f.(len := Some(len)))
  {
    hide Absorb, ParseU64, Decimal;
    ParseOfDecimal(len);
    KeysAreWords();
    AbsorbOfPair(f, "len", Decimal(len));
    assert "len" + "=" + Decimal(len) == "len=" + Decimal(len);
    WordTrims(Decimal(len));
  }

  lemma AbsorbOfChecksum(f: Fields, value: string)
    requires SolidEnds(value)
    ensures Absorb(f, "checksum=" + value) ==
            if value == "crc32" then Some(f.(checksum := true))
            else if value == "none" then Some(f.(checksum := false)) else None
  {
    hide Absorb, Trim;
    KeysAreWords();
    AbsorbOfPair(f, "checksum", value);
    assert "checksum" + "=" + value == "checksum=" + value && "" + value + "" == value;
    TrimPadded("", value, "");
  }

  /** The one path component a segment's name may be. */
  predicate OneComponent(t: string) {
    && t != "" && t != "." && t != ".."
    && (forall i :: 0 <= i < |t| ==> t[i] != '/' && t[i] as int != 0)
  }

  lemma ComponentIsSafe(t: string)
    ensures SafeName(t) <==> OneComponent(t)
  {
  }

  /** A named segment without an offset is accepted, from its start and with its bodies checked,
      exactly when its name without the slashes in front is one path component. */
  lemma SegmentParsesIff(name: string, k: nat, len: U64)
    requires ';' !in name && SolidEnds(name) && len > 0
    requires k <= |name| && (forall i :: 0 <= i < k ==> name[i] == '/') && (k < |name| ==> name[k] != '/')
    ensures Parse("shm:" + name + ";len=" + Decimal(len)) ==
            if OneComponent(name[k..]) then Some(TargetSpec(Shm(name[k..]), 0, len, true)) else None
  {
    hide Parse, Decimal, Split, Absorb, SafeName, OneComponent;
    var p := "len=" + Decimal(len);
    assert "shm:" + name + ";" + p == "shm:" + name + ";len=" + Decimal(len);
    AbsorbOfLen(NO_FIELDS, len);
    ParseOfDecimal(len);
    LastSolid("len=", Decimal(len));
    ParseOfShm(name, p);
    SplitWhole(p, ';');
    assert AbsorbAll(NO_FIELDS, [p]) == Some(NO_FIELDS.(len := Some(len))) by { assert [p][1..] == []; }
    TrimSlashesAt(name, k);
    ComponentIsSafe(name[k..]);
  }

  lemma LastSolid(key: string, digits: string)
    requires Word(digits) && digits != ""
    ensures !IsSpace((key + digits)[|key + digits| - 1])
  {
    assert digits[|digits| - 1] in digits;
  }

  lemma AbsorbTwo(f: Fields, p: string, g: Fields, q: string)
    requires Absorb(f, p) == Some(g)
    ensures AbsorbAll(f, [p] + [q]) == Absorb(g, q)
  {
    hide Absorb;
    assert ([p] + [q])[1..] == [q];
    if Absorb(g, q).Some? {
      assert AbsorbAll(Absorb(g, q).value, [q][1..]) == Absorb(g, q) by { assert [q][1..] == []; }
    }
  }

  /** With a checksum parameter behind it, only the two known values are accepted, and the value says
      whether bodies are checked. */
  lemma SegmentChecksumIff(name: string, k: nat, len: U64, value: string)
    requires ';' !in name && SolidEnds(name) && len > 0 && ';' !in value && SolidEnds(value)
    requires k <= |name| && (forall i :: 0 <= i < k ==> name[i] == '/') && (k < |name| ==> name[k] != '/')
    ensures Parse("shm:" + name + ";len=" + Decimal(len) + ";checksum=" + value) ==
            if OneComponent(name[k..]) && value == "crc32" then Some(TargetSpec(Shm(name[k..]), 0, len, true))
            else if OneComponent(name[k..]) && value == "none" then Some(TargetSpec(Shm(name[k..]), 0, len, false))
            else None
  {
    hide Parse, Decimal, Split, Absorb, SafeName, OneComponent;
    var p, q := "len=" + Decimal(len), "checksum=" + value;
    var params := p + [';'] + q;
    assert "shm:" + name + ";" + params == "shm:" + name + ";len=" + Decimal(len) + ";checksum=" + value;
    AbsorbOfLen(NO_FIELDS, len);
    AbsorbOfChecksum(NO_FIELDS.(len := Some(len)), value);
    assert params[|params| - 1] == q[|q| - 1];
    assert q[|q| - 1] == if value == "" then '=' else value[|value| - 1];
    ParseOfShm(name, params);
    SplitFirst(p, ';', q);
    SplitWhole(q, ';');
    AbsorbTwo(NO_FIELDS, p, NO_FIELDS.(len := Some(len)), q);
    TrimSlashesAt(name, k);
    ComponentIsSafe(name[k..]);
  }

  /** A segment takes no rails, whatever they are. */
  lemma SegmentWithRailsRefused(name: string, len: U64, value: string)
    requires ';' !in name && SolidEnds(name) && ';' !in value && SolidEnds(value)
    ensures Parse("shm:" + name + ";len=" + Decimal(len) + ";rails=" + value) == None
  {
    hide Parse, Decimal, Split, Absorb, SafeName, ParseRails;
    var p, q := "len=" + Decimal(len), "rails=" + value;
    var params := p + [';'] + q;
    var f := NO_FIELDS.(len := Some(len));
    assert "shm:" + name + ";" + params == "shm:" + name + ";len=" + Decimal(len) + ";rails=" + value;
    AbsorbOfLen(NO_FIELDS, len);
    assert Absorb(f, q).Some? ==> Absorb(f, q).value.rails.Some? by { AbsorbOfRails(f, value); }
    assert params[|params| - 1] == q[|q| - 1];
    assert q[|q| - 1] == if value == "" then '=' else value[|value| - 1];
    ParseOfShm(name, params);
    SplitFirst(p, ';', q);
    SplitWhole(q, ';');
    AbsorbTwo(NO_FIELDS, p, f, q);
  }

  lemma AbsorbOfRails(f: Fields, value: string)
    ensures Absorb(f, "rails=" + value).Some? ==> Absorb(f, "rails=" + value).value.rails.Some?
  {
    hide Absorb, ParseRails;
    KeysAreWords();
    AbsorbOfPair(f, "rails", value);
    assert "rails" + "=" + value == "rails=" + value;
  }

  /** For one, although the offset is documented as required. */
  lemma MissingOffsetWitness()
    ensures Parse("shm:/seg;len=1") == Some(TargetSpec(Shm("seg"), 0, 1, true))
  {
    hide Parse;
    SegmentParsesIff("/seg", 1, 1);
    assert Decimal(1) == "1" && "/seg"[1..] == "seg";
    assert "shm:" + "/seg" + ";len=" + "1" == "shm:/seg;len=1";
  }
}
