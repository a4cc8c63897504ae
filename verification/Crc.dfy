/**
 CRC-32 as section 8 of RFC 1952 defines it, and the law that lets the digests of neighbouring
 byte runs be combined without touching the bytes again.
 */
module Crc {
  import opened Bytes

  /** A 32-bit register, bit 0 (least significant) first. */
  type Word = w: seq<bool> | |w| == 32 witness Bits(32, 0)

  function Pow2(n: nat): (p: nat)
    ensures p > 0
  {
    if n == 0 then 1 else 2 * Pow2(n - 1)
  }

  /** The low `width` bits of `n`. */
  function Bits(width: nat, n: nat): (s: seq<bool>)
    ensures |s| == width
  {
    if width == 0 then [] else [n % 2 == 1] + Bits(width - 1, n / 2)
  }

  function FromBits(s: seq<bool>): (n: nat)
    ensures n < Pow2(|s|)
  {
    if s == [] then 0 else (if s[0] then 1 else 0) + 2 * FromBits(s[1..])
  }

  function WordOf(n: nat): Word { Bits(32, n) }

  function Xor(a: Word, b: Word): Word {
    seq(32, i requires 0 <= i < 32 => a[i] != b[i])
  }

  const ZERO: Word := WordOf(0)
  const ONES: Word := WordOf(0xFFFF_FFFF)
  const POLYNOMIAL: Word := WordOf(0xEDB8_8320)

  function Shr(c: Word): Word { c[1..] + [false] }

  /** One bit of the division. */
  function Shift(c: Word): Word {
    if c[0] then Xor(Shr(c), POLYNOMIAL) else Shr(c)
  }

  function Shifts(c: Word, n: nat): Word
    decreases n
  {
    if n == 0 then c else Shifts(Shift(c), n - 1)
  }

  const BYTE_BITS: nat := 8

  /** Feed one byte to the register. */
  function Feed(c: Word, b: Byte): Word {
    Shifts(Xor(c, WordOf(b)), BYTE_BITS)
  }

  function Register(c: Word, s: seq<Byte>): Word
    decreases |s|
  {
    if s == [] then c else Register(Feed(c, s[0]), s[1..])
  }

  /** The checksum of a byte string. */
  function Crc32(s: seq<Byte>): Word {
    Xor(Register(ONES, s), ONES)
  }

  /** `crc32fast::Hasher`: a checksum and the number of bytes it covers. */
  datatype Hasher = Hasher(crc: Word, len: nat)

  const NEW_HASHER := Hasher(ZERO, 0)

  function Update(h: Hasher, s: seq<Byte>): Hasher {
    Hasher(Xor(Register(Xor(h.crc, ONES), s), ONES), h.len + |s|)
  }

  /** `Hasher::combine`: shift the left checksum past the right one's bytes, then add. */
  function Combine(a: Hasher, b: Hasher): Hasher {
    if b.len == 0 then a else Hasher(Xor(Shifts(a.crc, BYTE_BITS * b.len), b.crc), a.len + b.len)
  }

  function HasherOf(s: seq<Byte>): Hasher {
    Update(NEW_HASHER, s)
  }

  // ----- addition of registers

  lemma XorLaws(a: Word, b: Word, c: Word)
    ensures Xor(a, b) == Xor(b, a)
    ensures Xor(Xor(a, b), c) == Xor(a, Xor(b, c))
    ensures Xor(Xor(a, b), b) == a
  {
  }

  // ----- the register is linear

  lemma ShiftLinear(a: Word, b: Word)
    ensures Shift(Xor(a, b)) == Xor(Shift(a), Shift(b))
  {
    hide Bits;
    assert Shr(Xor(a, b)) == Xor(Shr(a), Shr(b));
    XorLaws(Shr(a), Shr(b), POLYNOMIAL);
    XorLaws(Shr(a), POLYNOMIAL, Xor(Shr(b), POLYNOMIAL));
    XorLaws(Shr(b), POLYNOMIAL, POLYNOMIAL);
    XorLaws(POLYNOMIAL, Shr(b), POLYNOMIAL);
    XorLaws(Shr(a), POLYNOMIAL, Shr(b));
  }

  lemma {:induction false} ShiftsLinear(a: Word, b: Word, n: nat)
    ensures Shifts(Xor(a, b), n) == Xor(Shifts(a, n), Shifts(b, n))
    decreases n
  {
    if n > 0 {
      ShiftLinear(a, b);
      ShiftsLinear(Shift(a), Shift(b), n - 1);
    }
  }

  lemma {:induction false} ShiftsAdd(c: Word, m: nat, n: nat)
    ensures Shifts(c, m + n) == Shifts(Shifts(c, m), n)
    decreases m
  {
    if m > 0 {
      ShiftsAdd(Shift(c), m - 1, n);
    }
  }

  lemma FeedLinear(c: Word, d: Word, b: Byte)
    ensures Feed(Xor(c, d), b) == Xor(Feed(c, b), Shifts(d, BYTE_BITS))
  {
    var w := WordOf(b);
    assert Xor(Xor(c, d), w) == Xor(Xor(c, w), d);
    ShiftsLinear(Xor(c, w), d, BYTE_BITS);
  }

  /** Starting from a register that differs by `d` only adds `d`, shifted past the bytes. */
  lemma {:induction false} RegisterLinear(c: Word, d: Word, s: seq<Byte>)
    ensures Register(Xor(c, d), s) == Xor(Register(c, s), Shifts(d, BYTE_BITS * |s|))
    decreases |s|
  {
    hide Xor, Feed, Shift;
    if s != [] {
      FeedLinear(c, d, s[0]);
      RegisterLinear(Feed(c, s[0]), Shifts(d, BYTE_BITS), s[1..]);
      ShiftsAdd(d, BYTE_BITS, BYTE_BITS * |s[1..]|);
    }
  }

  lemma {:induction false} RegisterConcat(c: Word, s: seq<Byte>, t: seq<Byte>)
    ensures Register(c, s + t) == Register(Register(c, s), t)
    decreases |s|
  {
    if s == [] {
      assert s + t == t;
    } else {
      assert (s + t)[1..] == s[1..] + t;
      RegisterConcat(Feed(c, s[0]), s[1..], t);
    }
  }

  lemma {:induction false} BitsOfZero(width: nat)
    ensures forall i :: 0 <= i < width ==> !Bits(width, 0)[i]
  {
    if width > 0 {
      BitsOfZero(width - 1);
    }
  }

  lemma XorZero(a: Word)
    ensures Xor(a, ZERO) == a && Xor(ZERO, a) == a
  {
    BitsOfZero(32);
  }

  // ----- the combine law

  lemma HasherOfIsCrc(s: seq<Byte>)
    ensures HasherOf(s) == Hasher(Crc32(s), |s|)
  {
    XorZero(ONES);
  }

  lemma HasherOfNothing()
    ensures HasherOf([]) == NEW_HASHER
  {
    XorLaws(ZERO, ONES, ONES);
  }

  /** The checksum of two byte strings side by side, from their checksums alone. */
  lemma CrcOfConcat(s: seq<Byte>, t: seq<Byte>)
    ensures Crc32(s + t) == Xor(Shifts(Crc32(s), BYTE_BITS * |t|), Crc32(t))
  {
    var shifted := Shifts(Crc32(s), BYTE_BITS * |t|);
    RegisterConcat(ONES, s, t);
    XorLaws(Register(ONES, s), ONES, ONES);
    XorLaws(ONES, Crc32(s), ONES);
    RegisterLinear(ONES, Crc32(s), t);
    XorLaws(Register(ONES, t), shifted, ONES);
    XorLaws(shifted, Register(ONES, t), ONES);
  }

  /** Combining digests is digesting the concatenation. */
  lemma CombineLaw(s: seq<Byte>, t: seq<Byte>)
    ensures Combine(HasherOf(s), HasherOf(t)) == HasherOf(s + t)
  {
    HasherOfIsCrc(s);
    HasherOfIsCrc(t);
    HasherOfIsCrc(s + t);
    if t == [] {
      assert s + t == s;
    } else {
      CrcOfConcat(s, t);
    }
  }

  // ----- registers as numbers

  lemma {:induction false} BitsOfFromBits(s: seq<bool>)
    ensures Bits(|s|, FromBits(s)) == s
  {
    if s != [] {
      BitsOfFromBits(s[1..]);
    }
  }

  lemma Pow2Of32()
    ensures Pow2(32) == 0x1_0000_0000
  {
    assert Pow2(8) == 0x100;
    assert Pow2(16) == 2 * (2 * (2 * (2 * (2 * (2 * (2 * (2 * Pow2(8))))))));
    assert Pow2(24) == 2 * (2 * (2 * (2 * (2 * (2 * (2 * (2 * Pow2(16))))))));
    assert Pow2(32) == 2 * (2 * (2 * (2 * (2 * (2 * (2 * (2 * Pow2(24))))))));
  }

  /** The register read as a `u32`. */
  function Value(w: Word): (n: U32)
    ensures WordOf(n) == w
  {
    Pow2Of32();
    BitsOfFromBits(w);
    FromBits(w)
  }

  /** The checksum as a slot header carries it. */
  function BodyCrc(body: seq<Byte>): U32 {
    Value(Crc32(body))
  }

  // ----- no single damaged byte goes unnoticed

  lemma {:induction false} HighestBit(width: nat, n: nat)
    requires width > 0 && Pow2(width - 1) <= n < Pow2(width)
    ensures Bits(width, n)[width - 1]
  {
    if width > 1 {
      HighestBit(width - 1, n / 2);
    }
  }

  lemma TopBitSet()
    ensures POLYNOMIAL[31]
  {
    hide Bits;
    Pow2Of32();
    assert Pow2(32) == 2 * Pow2(31);
    HighestBit(32, 0xEDB8_8320);
  }

  /** The division step loses nothing: the bit it drops can be read off the top of the result. */
  lemma ShiftInjective(a: Word, b: Word)
    requires Shift(a) == Shift(b)
    ensures a == b
  {
    hide Bits;
    TopBitSet();
    assert Shift(a)[31] == a[0] && Shift(b)[31] == b[0];
    XorLaws(Shr(a), POLYNOMIAL, POLYNOMIAL);
    XorLaws(Shr(b), POLYNOMIAL, POLYNOMIAL);
    assert Shr(a) == Shr(b);
    assert a == [a[0]] + Shr(a)[..31];
    assert b == [b[0]] + Shr(b)[..31];
  }

  lemma {:induction false} ShiftsInjective(a: Word, b: Word, n: nat)
    requires Shifts(a, n) == Shifts(b, n)
    ensures a == b
    decreases n
  {
    if n > 0 {
      ShiftsInjective(Shift(a), Shift(b), n - 1);
      ShiftInjective(a, b);
    }
  }

  lemma {:induction false} RegisterInjective(c: Word, d: Word, s: seq<Byte>)
    requires Register(c, s) == Register(d, s)
    ensures c == d
    decreases |s|
  {
    hide Xor, Shifts;
    if s != [] {
      RegisterInjective(Feed(c, s[0]), Feed(d, s[0]), s[1..]);
      ShiftsInjective(Xor(c, WordOf(s[0])), Xor(d, WordOf(s[0])), BYTE_BITS);
      XorLaws(c, WordOf(s[0]), ZERO);
      XorLaws(d, WordOf(s[0]), ZERO);
    }
  }

  lemma {:induction false} FromBitsOfBits(width: nat, n: nat)
    requires n < Pow2(width)
    ensures FromBits(Bits(width, n)) == n
  {
    if width > 0 {
      FromBitsOfBits(width - 1, n / 2);
    }
  }

  lemma FeedTellsBytesApart(c: Word, x: Byte, y: Byte)
    requires Feed(c, x) == Feed(c, y)
    ensures x == y
  {
    hide Xor, Shifts, Bits;
    ShiftsInjective(Xor(c, WordOf(x)), Xor(c, WordOf(y)), BYTE_BITS);
    XorLaws(WordOf(x), c, ZERO);
    XorLaws(WordOf(y), c, ZERO);
    Pow2Of32();
    FromBitsOfBits(32, x);
    FromBitsOfBits(32, y);
  }

  lemma RegisterTellsBytesApart(c: Word, x: Byte, y: Byte, rest: seq<Byte>)
    requires x != y
    ensures Register(c, [x] + rest) != Register(c, [y] + rest)
  {
    hide Feed;
    assert ([x] + rest)[1..] == rest && ([y] + rest)[1..] == rest;
    if Register(Feed(c, x), rest) == Register(Feed(c, y), rest) {
      RegisterInjective(Feed(c, x), Feed(c, y), rest);
      FeedTellsBytesApart(c, x, y);
    }
  }

  lemma SameCrcSameRegister(s: seq<Byte>, t: seq<Byte>)
    requires BodyCrc(s) == BodyCrc(t)
    ensures Register(ONES, s) == Register(ONES, t)
  {
    hide Xor, Register;
    XorLaws(Register(ONES, s), ONES, ZERO);
    XorLaws(Register(ONES, t), ONES, ZERO);
  }

  /** Changing one byte of a string always changes its checksum. */
  lemma OneByteDetected(s: seq<Byte>, i: nat, b: Byte)
    requires i < |s| && b != s[i]
    ensures BodyCrc(s[i := b]) != BodyCrc(s)
  {
    hide Register, BodyCrc;
    var front, back := s[..i], s[i + 1..];
    assert s == front + ([s[i]] + back);
    assert s[i := b] == front + ([b] + back);
    RegisterConcat(ONES, front, [s[i]] + back);
    RegisterConcat(ONES, front, [b] + back);
    RegisterTellsBytesApart(Register(ONES, front), s[i], b, back);
    if BodyCrc(s[i := b]) == BodyCrc(s) {
      SameCrcSameRegister(s[i := b], s);
    }
  }

  // ----- the byte-at-a-time table of RFC 1952

  /** What the code in RFC 1952 computes: look the low byte up, add the register shifted by eight. */
  function TableFeed(c: Word, b: Byte): Word {
    Xor(Shifts(Xor(c, WordOf(b))[..8] + Bits(24, 0), BYTE_BITS), c[8..] + Bits(8, 0))
  }

  function TableRegister(c: Word, s: seq<Byte>): Word
    decreases |s|
  {
    if s == [] then c else TableRegister(TableFeed(c, s[0]), s[1..])
  }

  lemma {:induction false} ShiftsOfFalse(c: Word, k: nat)
    requires k <= 32
    requires forall i :: 0 <= i < k ==> !c[i]
    ensures Shifts(c, k) == c[k..] + Bits(k, 0)
    decreases k
  {
    hide Xor, Bits;
    if k == 0 {
      assert c[0..] + Bits(0, 0) == c;
    } else {
      var d := Shr(c);
      assert forall i :: 0 <= i < k - 1 ==> d[i] == c[i + 1];
      ShiftsOfFalse(d, k - 1);
      ZeroBitsStep(k);
      TailOfShift(c, k);
      Regroup(c[k..], [false], Bits(k - 1, 0));
    }
  }

  lemma TailOfShift(c: seq<bool>, k: nat)
    requires 1 <= k <= |c|
    ensures (c[1..] + [false])[k - 1..] == c[k..] + [false]
  {
    var a, b := (c[1..] + [false])[k - 1..], c[k..] + [false];
    assert |a| == |b| && forall i :: 0 <= i < |a| ==> a[i] == b[i];
  }

  lemma Regroup(a: seq<bool>, b: seq<bool>, c: seq<bool>)
    ensures (a + b) + c == a + (b + c)
  {
  }

  lemma ZeroBitsStep(k: nat)
    requires k > 0
    ensures Bits(k, 0) == [false] + Bits(k - 1, 0)
  {
  }

  lemma {:induction false} BitsAbove(width: nat, n: nat, k: nat)
    requires n < Pow2(k)
    ensures forall i :: k <= i < width ==> !Bits(width, n)[i]
    decreases width
  {
    if width > 0 {
      if k == 0 {
        BitsOfZero(width);
      } else {
        BitsAbove(width - 1, n / 2, k - 1);
      }
    }
  }

  /** A word is its low byte and the rest, added. */
  lemma SplitWord(x: Word)
    ensures x == Xor(x[..8] + Bits(24, 0), Bits(8, 0) + x[8..])
  {
    BitsOfZero(24);
    BitsOfZero(8);
    hide Bits;
  }

  /** Adding a byte leaves the bits above it alone. */
  lemma AddedByte(c: Word, b: Byte)
    ensures Xor(c, WordOf(b))[8..] == c[8..]
  {
    BitsAbove(32, b, 8);
    hide Bits;
  }

  lemma TableFeedIsFeed(c: Word, b: Byte)
    ensures TableFeed(c, b) == Feed(c, b)
  {
    BitsOfZero(8);
    hide Bits, Shifts, Xor, WordOf;
    var x := Xor(c, WordOf(b));
    var low: Word, high: Word := x[..8] + Bits(24, 0), Bits(8, 0) + x[8..];
    SplitWord(x);
    ShiftsLinear(low, high, BYTE_BITS);
    assert forall i :: 0 <= i < 8 ==> !high[i];
    ShiftsOfFalse(high, BYTE_BITS);
    AddedByte(c, b);
    assert high[8..] == c[8..];
  }

  /** The table-driven checksum is the bit-by-bit one. */
  lemma {:induction false} TableRegisterIsRegister(c: Word, s: seq<Byte>)
    ensures TableRegister(c, s) == Register(c, s)
    decreases |s|
  {
    if s != [] {
      TableFeedIsFeed(c, s[0]);
      TableRegisterIsRegister(Feed(c, s[0]), s[1..]);
    }
  }

  // ----- the constants, bit by bit

  /** `n` halved `k` times. */
  function Half(n: nat, k: nat): nat { if k == 0 then n else Half(n, k - 1) / 2 }

  lemma {:induction false} HalfFirst(n: nat, k: nat)
    ensures Half(n / 2, k) == Half(n, k + 1)
  {
    if k > 0 {
      HalfFirst(n, k - 1);
    }
  }

  lemma {:induction false} BitAt(width: nat, n: nat, i: nat)
    requires i < width
    ensures Bits(width, n)[i] == (Half(n, i) % 2 == 1)
  {
    if i > 0 {
      BitAt(width - 1, n / 2, i - 1);
      HalfFirst(n, i - 1);
    }
  }

  lemma LowerHalves(n: nat)
    requires n == 0xEDB8_8320
    ensures Half(n, 1) == 0x76DC_4190 && Half(n, 2) == 0x3B6E_20C8 && Half(n, 3) == 0x1DB7_1064
    ensures Half(n, 4) == 0xEDB_8832 && Half(n, 5) == 0x76D_C419 && Half(n, 6) == 0x3B6_E20C && Half(n, 7) == 0x1DB_7106
    ensures Half(n, 8) == 0xED_B883 && Half(n, 9) == 0x76_DC41 && Half(n, 10) == 0x3B_6E20 && Half(n, 11) == 0x1D_B710
    ensures Half(n, 12) == 0xE_DB88 && Half(n, 13) == 0x7_6DC4 && Half(n, 14) == 0x3_B6E2 && Half(n, 15) == 0x1_DB71
  {
  }

  lemma UpperHalves(n: nat)
    requires n == 0xEDB8_8320
    ensures Half(n, 16) == 0xEDB8 && Half(n, 17) == 0x76DC && Half(n, 18) == 0x3B6E && Half(n, 19) == 0x1DB7
    ensures Half(n, 20) == 0xEDB && Half(n, 21) == 0x76D && Half(n, 22) == 0x3B6 && Half(n, 23) == 0x1DB
    ensures Half(n, 24) == 0xED && Half(n, 25) == 0x76 && Half(n, 26) == 0x3B && Half(n, 27) == 0x1D
    ensures Half(n, 28) == 0xE && Half(n, 29) == 0x7 && Half(n, 30) == 0x3 && Half(n, 31) == 0x1
  {
    LowerHalves(n);
  }

  /** Which terms below x^32 the number spells, the highest in its lowest bit. */
  lemma TermsOf(n: nat, i: nat)
    requires n == 0xEDB8_8320 && i < 32
    ensures Half(n, i) % 2 == 1 <==> 31 - i in {26, 23, 22, 16, 12, 11, 10, 8, 7, 5, 4, 2, 1, 0}
  {
    LowerHalves(n);
    UpperHalves(n);
    assert Half(n, 0) == n;
    hide Half;
  }

  /** The terms of the generator polynomial below x^32, as section 8 of RFC 1952 has them. */
  lemma PolynomialTerms(i: nat)
    requires i < 32
    ensures POLYNOMIAL[i] <==> 31 - i in {26, 23, 22, 16, 12, 11, 10, 8, 7, 5, 4, 2, 1, 0}
  {
    hide Bits, Half;
    BitAt(32, 0xEDB8_8320, i);
    TermsOf(0xEDB8_8320, i);
  }

  lemma {:induction false} BitsOfOnes(width: nat, n: nat, i: nat)
    requires i < width && n == Pow2(width) - 1
    ensures Bits(width, n)[i]
  {
    var m := Pow2(width - 1);
    assert n == 2 * (m - 1) + 1 && n % 2 == 1 && n / 2 == m - 1;
    if i > 0 {
      BitsOfOnes(width - 1, n / 2, i - 1);
    }
  }

  /** The register starts with every bit set, and every bit of the result is turned over. */
  lemma OnesSet(i: nat)
    requires i < 32
    ensures ONES[i] && !ZERO[i]
  {
    BitsOfZero(32);
    hide Bits;
    Pow2Of32();
    BitsOfOnes(32, 0xFFFF_FFFF, i);
  }

  /** Dividing the term x^8 by the generator leaves the generator's lower terms: the table entry of
      the byte 0x80. */
  lemma TopBitDivides()
    ensures Register(ZERO, [0x80]) == POLYNOMIAL
  {
    hide Bits, Shifts, Xor;
    var w := WordOf(0x80);
    XorZero(w);
    assert [0x80 as Byte][1..] == [];
    BitsOf128();
    ShiftsOfFalse(w, 7);
    ShiftsAdd(w, 7, 1);
    OneShift(w[7..] + Bits(7, 0));
  }

  lemma BitsOf128()
    ensures forall i :: 0 <= i < 32 ==> WordOf(0x80)[i] == (i == 7)
    ensures forall i :: 0 <= i < 7 ==> !Bits(7, 0)[i]
  {
    assert Pow2(8) == 0x100;
    BitsAbove(32, 0x80, 8);
    BitsOfZero(7);
    hide Bits, Half;
    forall i | 0 <= i < 8
      ensures WordOf(0x80)[i] == (i == 7)
    {
      BitAt(32, 0x80, i);
      HalvesOf128(0x80, i);
    }
  }

  lemma HalvesOf128(n: nat, i: nat)
    requires n == 0x80 && i < 8
    ensures Half(n, i) % 2 == 1 <==> i == 7
  {
    assert Half(n, 1) == 0x40 && Half(n, 2) == 0x20 && Half(n, 3) == 0x10 && Half(n, 4) == 8;
    assert Half(n, 5) == 4 && Half(n, 6) == 2 && Half(n, 7) == 1;
  }

  lemma OneShift(c: Word)
    requires forall i :: 0 <= i < 32 ==> c[i] == (i == 0)
    ensures Shifts(c, 1) == POLYNOMIAL
  {
    BitsOfZero(32);
    assert Shr(c) == ZERO;
    XorZero(POLYNOMIAL);
  }

}
