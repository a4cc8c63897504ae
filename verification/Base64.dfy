/** How a CRC-32 travels: base64 of its four bytes, most significant first (section 4 of RFC 4648). */
module Base64 {
  import opened Common
  import opened Bytes

  function Character(d: nat): char
    requires d < 64
  {
    if d < 26 then (d + ('A' as int)) as char
    else if d < 52 then (d - 26 + ('a' as int)) as char
    else if d < 62 then (d - 52 + ('0' as int)) as char
    else if d == 62 then '+'
    else '/'
  }

  function Digit(c: char): Option<nat> {
    if 'A' <= c <= 'Z' then Some((c as int) - ('A' as int))
    else if 'a' <= c <= 'z' then Some((c as int) - ('a' as int) + 26)
    else if '0' <= c <= '9' then Some((c as int) - ('0' as int) + 52)
    else if c == '+' then Some(62)
    else if c == '/' then Some(63)
    else None
  }

  /** Table 1 of RFC 4648, in three runs. */
  const UPPER: string := "ABCDEFGHIJKLMNOPQRSTUVWXYZ"
  const LOWER: string := "abcdefghijklmnopqrstuvwxyz"
  const OTHERS: string := "0123456789+/"

  lemma UpperRun(d: nat)
    requires d < 26
    ensures |UPPER| == 26 && Character(d) == UPPER[d]
  {
    assert UPPER[0] == 'A' && UPPER[1] == 'B' && UPPER[2] == 'C' && UPPER[3] == 'D' && UPPER[4] == 'E';
    assert UPPER[5] == 'F' && UPPER[6] == 'G' && UPPER[7] == 'H' && UPPER[8] == 'I' && UPPER[9] == 'J';
    assert UPPER[10] == 'K' && UPPER[11] == 'L' && UPPER[12] == 'M' && UPPER[13] == 'N' && UPPER[14] == 'O';
    assert UPPER[15] == 'P' && UPPER[16] == 'Q' && UPPER[17] == 'R' && UPPER[18] == 'S' && UPPER[19] == 'T';
    assert UPPER[20] == 'U' && UPPER[21] == 'V' && UPPER[22] == 'W' && UPPER[23] == 'X' && UPPER[24] == 'Y';
    assert UPPER[25] == 'Z';
  }

  lemma LowerRun(d: nat)
    requires d < 26
    ensures |LOWER| == 26 && Character(26 + d) == LOWER[d]
  {
    assert LOWER[0] == 'a' && LOWER[1] == 'b' && LOWER[2] == 'c' && LOWER[3] == 'd' && LOWER[4] == 'e';
    assert LOWER[5] == 'f' && LOWER[6] == 'g' && LOWER[7] == 'h' && LOWER[8] == 'i' && LOWER[9] == 'j';
    assert LOWER[10] == 'k' && LOWER[11] == 'l' && LOWER[12] == 'm' && LOWER[13] == 'n' && LOWER[14] == 'o';
    assert LOWER[15] == 'p' && LOWER[16] == 'q' && LOWER[17] == 'r' && LOWER[18] == 's' && LOWER[19] == 't';
    assert LOWER[20] == 'u' && LOWER[21] == 'v' && LOWER[22] == 'w' && LOWER[23] == 'x' && LOWER[24] == 'y';
    assert LOWER[25] == 'z';
  }

  lemma OtherRun(d: nat)
    requires d < 12
    ensures |OTHERS| == 12 && Character(52 + d) == OTHERS[d]
  {
    assert OTHERS[0] == '0' && OTHERS[1] == '1' && OTHERS[2] == '2' && OTHERS[3] == '3' && OTHERS[4] == '4';
    assert OTHERS[5] == '5' && OTHERS[6] == '6' && OTHERS[7] == '7' && OTHERS[8] == '8' && OTHERS[9] == '9';
    assert OTHERS[10] == '+' && OTHERS[11] == '/';
  }

  /** Each digit is written as the character at its place in the alphabet. */
  lemma CharacterInAlphabet(d: nat)
    requires d < 64
    ensures |UPPER| == |LOWER| == 26 && |OTHERS| == 12
    ensures Character(d) == if d < 26 then UPPER[d] else if d < 52 then LOWER[d - 26] else OTHERS[d - 52]
  {
    hide Character;
    if d < 26 {
      UpperRun(d);
    } else if d < 52 {
      LowerRun(d - 26);
    } else {
      OtherRun(d - 52);
    }
  }

  lemma DigitOfCharacter(d: nat)
    requires d < 64
    ensures Digit(Character(d)) == Some(d)
  {
  }

  /** The last six bits of `n`. */
  function Low(n: nat): (d: nat)
    ensures d < 64
  {
    n % 64
  }

  /** `n` without its last six bits. */
  function High(n: nat): nat { n / 64 }

  /** The last `width` six-bit groups of `n`, the highest first. */
  function Groups(n: nat, width: nat): (s: string)
    ensures |s| == width
  {
    if width == 0 then "" else Groups(High(n), width - 1) + [Character(Low(n))]
  }

  /** The 32 bits and four zero bits make six groups; two padding characters complete the quantum. */
  function Encode(value: U32): string { Groups(value * 16, 6) + "==" }

  /** The value of a string of groups. */
  function FromGroups(s: string): Option<nat> {
    if s == "" then Some(0)
    else
      match (FromGroups(s[..|s| - 1]), Digit(s[|s| - 1]))
      case (Some(n), Some(d)) => Some(n * 64 + d)
      case _ => None
  }

  function Decode(s: string): Option<nat> {
    if |s| == 8 && s[6..] == "==" then
      match FromGroups(s[..6]) case None => None case Some(n) => if n % 16 == 0 then Some(n / 16) else None
    else None
  }

  function Pow64(width: nat): nat { if width == 0 then 1 else 64 * Pow64(width - 1) }

  lemma {:induction false} FromGroupsOfGroups(n: nat, width: nat)
    requires n < Pow64(width)
    ensures FromGroups(Groups(n, width)) == Some(n)
    decreases width
  {
    if width > 0 {
      var s := Groups(n, width);
      assert s[..|s| - 1] == Groups(High(n), width - 1);
      FromGroupsOfGroups(High(n), width - 1);
      DigitOfCharacter(Low(n));
      assert High(n) * 64 + Low(n) == n;
    }
  }

  /** Reading an encoded checksum back gives it again. */
  lemma DecodeOfEncode(value: U32)
    ensures Decode(Encode(value)) == Some(value)
  {
    hide Groups, FromGroups;
    var s := Encode(value);
    assert Pow64(6) == 0x10_0000_0000 by { Sixth(); }
    FromGroupsOfGroups(value * 16, 6);
    assert s[..6] == Groups(value * 16, 6) && s[6..] == "==";
  }

  lemma Sixth()
    ensures Pow64(6) == 0x10_0000_0000
  {
    assert Pow64(3) == 0x4_0000;
  }

  lemma CharacterOfDigit(c: char)
    requires Digit(c).Some?
    ensures Digit(c).value < 64 && Character(Digit(c).value) == c
  {
  }

  lemma {:induction false} GroupsOfFromGroups(s: string)
    requires FromGroups(s).Some?
    ensures FromGroups(s).value < Pow64(|s|) && Groups(FromGroups(s).value, |s|) == s
  {
    if s != "" {
      var front, c := s[..|s| - 1], s[|s| - 1];
      var n, d := FromGroups(front).value, Digit(c).value;
      GroupsOfFromGroups(front);
      CharacterOfDigit(c);
      assert High(n * 64 + d) == n && Low(n * 64 + d) == d;
      assert front + [c] == s;
    }
  }

  /** Only encodings decode: no other string names a checksum. */
  lemma EncodeOfDecode(s: string)
    requires Decode(s).Some?
    ensures Decode(s).value < 0x1_0000_0000 && Encode(Decode(s).value) == s
  {
    hide Groups, FromGroups;
    var n := FromGroups(s[..6]).value;
    GroupsOfFromGroups(s[..6]);
    Sixth();
    assert n / 16 * 16 == n;
    assert s == s[..6] + s[6..];
  }

  /** `n` shifted down by `groups` groups of six bits. */
  function Shifted(n: nat, groups: nat): nat {
    if groups == 0 then n else High(Shifted(n, groups - 1))
  }

  /** Append the groups one at a time, each shifted down and masked. */
  method EncodeByShifts(value: U32) returns (out: string)
    ensures out == Encode(value)
  {
    hide Character;
    var packed := value * 16;
    out := "";
    for i := 0 to 6
      invariant out == Groups(Shifted(packed, 6 - i), i)
    {
      out := out + [Character(Low(Shifted(packed, 5 - i)))];
    }
    out := out + "==";
  }
}
