/** Bytes, little-endian integers and UTF-8 text. */
module Bytes {

  type Byte = b: int | 0 <= b < 0x100

  type U16 = n: int | 0 <= n < 0x1_0000

  type U32 = n: int | 0 <= n < 0x1_0000_0000

  type U64 = n: int | 0 <= n < 0x1_0000_0000_0000_0000

  const U64_MAX: U64 := 0xFFFF_FFFF_FFFF_FFFF

  /** Where a UTF-8 decoder stands: between characters, owed one to three continuation bytes,
      owed a narrowed second byte (after E0, ED, F0 or F4), or past an error. */
  datatype Utf8State = Start | Need1 | Need2 | Need3 | AfterE0 | AfterED | AfterF0 | AfterF4 | Bad

  function Utf8Step(q: Utf8State, b: Byte): Utf8State {
    match q
    case Start =>
      if b < 0x80 then Start
      else if 0xC2 <= b <= 0xDF then Need1
      else if b == 0xE0 then AfterE0
      else if b == 0xED then AfterED
      else if 0xE1 <= b <= 0xEF then Need2
      else if b == 0xF0 then AfterF0
      else if b == 0xF4 then AfterF4
      else if 0xF1 <= b <= 0xF3 then Need3
      else Bad
    case Need1 => if 0x80 <= b <= 0xBF then Start else Bad
    case Need2 => if 0x80 <= b <= 0xBF then Need1 else Bad
    case Need3 => if 0x80 <= b <= 0xBF then Need2 else Bad
    case AfterE0 => if 0xA0 <= b <= 0xBF then Need1 else Bad
    case AfterED => if 0x80 <= b <= 0x9F then Need1 else Bad
    case AfterF0 => if 0x90 <= b <= 0xBF then Need2 else Bad
    case AfterF4 => if 0x80 <= b <= 0x8F then Need2 else Bad
    case Bad => Bad
  }

  function Utf8Run(s: seq<Byte>): Utf8State {
    if s == [] then Start else Utf8Step(Utf8Run(s[..|s| - 1]), s[|s| - 1])
  }

  /** The byte strings `std::str::from_utf8` accepts: no overlong form, no surrogate, nothing
      above U+10FFFF. */
  predicate ValidUtf8(s: seq<Byte>) {
    Utf8Run(s) == Start
  }

  /** A Rust `str`, by its bytes. */
  type Utf8 = s: seq<Byte> | ValidUtf8(s) witness []

  // ----- little-endian integers

  function Pow256(width: nat): (p: nat)
    ensures p > 0
  {
    if width == 0 then 1 else 256 * Pow256(width - 1)
  }

  /** The low `width` bytes of `n`, least significant first: `to_le_bytes`. */
  function Le(width: nat, n: nat): (s: seq<Byte>)
    ensures |s| == width
  {
    if width == 0 then [] else [n % 256] + Le(width - 1, n / 256)
  }

  /** `from_le_bytes`. */
  function FromLe(s: seq<Byte>): (n: nat)
    ensures n < Pow256(|s|)
  {
    if s == [] then 0 else s[0] + 256 * FromLe(s[1..])
  }

  lemma {:induction false} FromLeOfLe(width: nat, n: nat)
    requires n < Pow256(width)
    ensures FromLe(Le(width, n)) == n
  {
    if width > 0 {
      assert Le(width, n)[1..] == Le(width - 1, n / 256);
      FromLeOfLe(width - 1, n / 256);
    }
  }

  lemma {:induction false} LeOfFromLe(s: seq<Byte>)
    ensures Le(|s|, FromLe(s)) == s
  {
    if s != [] {
      LeOfFromLe(s[1..]);
      assert FromLe(s) % 256 == s[0] && FromLe(s) / 256 == FromLe(s[1..]);
    }
  }

  lemma PowersOf256()
    ensures Pow256(2) == 0x1_0000
    ensures Pow256(4) == 0x1_0000_0000
    ensures Pow256(8) == 0x1_0000_0000_0000_0000
  {
    assert Pow256(4) == 256 * (256 * Pow256(2));
    assert Pow256(8) == 256 * (256 * (256 * (256 * Pow256(4))));
  }

  lemma LeStep(width: nat, n: nat)
    requires width > 0
    ensures Le(width, n) == [n % 0x100] + Le(width - 1, n / 0x100)
  {
  }

  /** Least significant byte first. */
  lemma LeBytes(n: U32)
    ensures Le(4, n) == [n % 0x100, n / 0x100 % 0x100, n / 0x1_0000 % 0x100, n / 0x100_0000]
    ensures n < 0x1_0000 ==> Le(2, n) == [n % 0x100, n / 0x100]
  {
    var b, c, d := n / 0x100, n / 0x1_0000, n / 0x100_0000;
    assert b / 0x100 == c && c / 0x100 == d && d < 0x100;
    assert Le(0, 0) == [];
    hide Le;
    LeStep(4, n);
    LeStep(3, b);
    LeStep(2, c);
    LeStep(1, d);
    LeStep(2, n);
    LeStep(1, b);
  }
}
