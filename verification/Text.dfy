/** The string operations the text formats rely on: trimming, splitting, and numbers as digits. */
module Text {
  import opened Common

  /** Unicode `White_Space`, what `str::trim` removes. */
  predicate IsSpace(c: char) {
    var n := c as int;
    || 0x9 <= n <= 0xD || n == 0x20 || n == 0x85 || n == 0xA0 || n == 0x1680 || 0x2000 <= n <= 0x200A
    || n == 0x2028 || n == 0x2029 || n == 0x202F || n == 0x205F || n == 0x3000
  }

  /** The characters with that property, listed. */
  lemma SpacesAre(c: char)
    ensures IsSpace(c) <==>
            c as int in {0x9, 0xA, 0xB, 0xC, 0xD, 0x20, 0x85, 0xA0, 0x1680, 0x2000, 0x2001, 0x2002, 0x2003, 0x2004,
                         0x2005, 0x2006, 0x2007, 0x2008, 0x2009, 0x200A, 0x2028, 0x2029, 0x202F, 0x205F, 0x3000}
  {
  }

  function TrimStart(s: string): string {
    if s != "" && IsSpace(s[0]) then TrimStart(s[1..]) else s
  }

  function TrimEnd(s: string): string {
    if s != "" && IsSpace(s[|s| - 1]) then TrimEnd(s[..|s| - 1]) else s
  }

  function Trim(s: string): string { TrimEnd(TrimStart(s)) }

  predicate NoSpace(s: string) {
    forall c :: c in s ==> !IsSpace(c)
  }

  lemma TrimSolid(s: string)
    requires NoSpace(s)
    ensures Trim(s) == s
  {
  }

  lemma {:induction false} TrimStartFirst(s: string)
    ensures TrimStart(s) != "" ==> !IsSpace(TrimStart(s)[0])
  {
    if s != "" && IsSpace(s[0]) {
      TrimStartFirst(s[1..]);
    }
  }

  lemma {:induction false} TrimEndIsPrefix(s: string)
    ensures TrimEnd(s) <= s
  {
    if s != "" && IsSpace(s[|s| - 1]) {
      TrimEndIsPrefix(s[..|s| - 1]);
    }
  }

  /** Trimmed text with solid text behind it is trimmed. */
  lemma TrimWithTail(s: string, tail: string)
    requires tail != "" && NoSpace(tail)
    ensures Trim(Trim(s) + tail) == Trim(s) + tail
  {
    TrimStartFirst(s);
    TrimEndIsPrefix(TrimStart(s));
    var t := Trim(s) + tail;
    assert !IsSpace(t[0]) by { assert tail[0] in tail; }
    assert t[|t| - 1] == tail[|tail| - 1] && tail[|tail| - 1] in tail;
  }

  predicate AllSpace(s: string) {
    forall c :: c in s ==> IsSpace(c)
  }

  /** Text that neither begins nor ends with a space. */
  predicate SolidEnds(s: string) {
    s == "" || (!IsSpace(s[0]) && !IsSpace(s[|s| - 1]))
  }

  lemma {:induction false} TrimStartPadded(before: string, s: string)
    requires AllSpace(before)
    ensures TrimStart(before + s) == TrimStart(s)
  {
    if before == "" {
      assert before + s == s;
    } else {
      assert before[0] in before && (before + s)[1..] == before[1..] + s;
      TrimStartPadded(before[1..], s);
    }
  }

  lemma {:induction false} TrimEndPadded(s: string, after: string)
    requires AllSpace(after)
    ensures TrimEnd(s + after) == TrimEnd(s)
  {
    if after == "" {
      assert s + after == s;
    } else {
      var last := |after| - 1;
      assert after[last] in after && (s + after)[..|s| + last] == s + after[..last];
      TrimEndPadded(s, after[..last]);
    }
  }

  lemma {:induction false} TrimStartBefore(s: string, after: string)
    requires s != "" && !IsSpace(s[|s| - 1])
    ensures TrimStart(s + after) == TrimStart(s) + after
  {
    if IsSpace(s[0]) {
      assert (s + after)[1..] == s[1..] + after;
      TrimStartBefore(s[1..], after);
    }
  }

  /** Trimming takes exactly the surrounding space off. */
  lemma TrimPadded(before: string, s: string, after: string)
    requires AllSpace(before) && AllSpace(after) && SolidEnds(s)
    ensures Trim(before + s + after) == s
  {
    assert before + s + after == before + (s + after);
    TrimStartPadded(before, s + after);
    if s == "" {
      assert s + after == after + "";
      TrimStartPadded(after, "");
    } else {
      TrimStartBefore(s, after);
      TrimEndPadded(s, after);
    }
  }

  /** `prefix` taken off the front, or `None`. */
  function StripPrefix(s: string, prefix: string): Option<string> {
    if prefix <= s then Some(s[|prefix|..]) else None
  }

  // ----- splitting and joining

  /** The pieces between occurrences of `sep`: always at least one. */
  function Split(s: string, sep: char): (r: seq<string>)
    ensures |r| >= 1
  {
    if s == "" then [""]
    else
      var rest := Split(s[1..], sep);
      if s[0] == sep then [""] + rest else [[s[0]] + rest[0]] + rest[1..]
  }

  function Join(parts: seq<string>, sep: char): string {
    if parts == [] then ""
    else if |parts| == 1 then parts[0]
    else parts[0] + [sep] + Join(parts[1..], sep)
  }

  function SplitOnce(s: string, sep: char): Option<(string, string)> {
    if s == "" then None
    else if s[0] == sep then Some(("", s[1..]))
    else
      match SplitOnce(s[1..], sep)
      case None => None
      case Some(p) => Some(([s[0]] + p.0, p.1))
  }

  lemma {:induction false} SplitWhole(a: string, sep: char)
    requires sep !in a
    ensures Split(a, sep) == [a]
  {
    if a != "" {
      SplitWhole(a[1..], sep);
      assert [a[0]] + a[1..] == a;
    }
  }

  lemma {:induction false} SplitFirst(a: string, sep: char, b: string)
    requires sep !in a
    ensures Split(a + [sep] + b, sep) == [a] + Split(b, sep)
  {
    var s := a + [sep] + b;
    if a == "" {
      assert s[1..] == b;
    } else {
      assert s[1..] == a[1..] + [sep] + b;
      SplitFirst(a[1..], sep, b);
      assert [a[0]] + a[1..] == a;
    }
  }

  lemma {:induction false} SplitLast(a: string, sep: char, b: string)
    requires sep !in b
    ensures Split(a + [sep] + b, sep) == Split(a, sep) + [b]
  {
    var s := a + [sep] + b;
    if a == "" {
      assert s[1..] == b;
      SplitWhole(b, sep);
    } else {
      assert s[1..] == a[1..] + [sep] + b;
      SplitLast(a[1..], sep, b);
    }
  }

  /** Splitting undoes joining, for pieces free of the separator. */
  lemma {:induction false} SplitOfJoin(parts: seq<string>, sep: char)
    requires |parts| >= 1
    requires forall i :: 0 <= i < |parts| ==> sep !in parts[i]
    ensures Split(Join(parts, sep), sep) == parts
  {
    if |parts| == 1 {
      SplitWhole(parts[0], sep);
    } else {
      SplitFirst(parts[0], sep, Join(parts[1..], sep));
      SplitOfJoin(parts[1..], sep);
      assert [parts[0]] + parts[1..] == parts;
    }
  }

  lemma {:induction false} SplitOnceFirst(a: string, sep: char, b: string)
    requires sep !in a
    ensures SplitOnce(a + [sep] + b, sep) == Some((a, b))
  {
    var s := a + [sep] + b;
    if a == "" {
      assert s[1..] == b;
    } else {
      assert s[1..] == a[1..] + [sep] + b;
      SplitOnceFirst(a[1..], sep, b);
      assert [a[0]] + a[1..] == a;
    }
  }

  /** What holds of every character of every piece and of the separator holds of the joined text. */
  lemma {:induction false} JoinedChars(parts: seq<string>, sep: char, ok: char -> bool)
    requires ok(sep)
    requires forall i, c :: 0 <= i < |parts| && c in parts[i] ==> ok(c)
    ensures forall c :: c in Join(parts, sep) ==> ok(c)
  {
    if |parts| > 1 {
      forall i, c | 0 <= i < |parts[1..]| && c in parts[1..][i]
        ensures ok(c)
      {
        assert c in parts[i + 1];
      }
      JoinedChars(parts[1..], sep, ok);
    }
  }

  // ----- numbers

  /** The value of a digit, in any radix up to sixteen; `None` for any other character. */
  function DigitValue(c: char): (r: Option<nat>)
    ensures r.Some? ==> r.value < 16
  {
    if '0' <= c <= '9' then Some((c as int) - ('0' as int))
    else if 'a' <= c <= 'f' then Some((c as int) - ('a' as int) + 10)
    else if 'A' <= c <= 'F' then Some((c as int) - ('A' as int) + 10)
    else None
  }

  function DigitChar(d: nat): (c: char)
    requires d < 16
    ensures DigitValue(c) == Some(d)
    ensures '0' <= c <= '9' || 'a' <= c <= 'f'
    ensures d < 10 ==> '0' <= c <= '9'
  {
    if d < 10 then (d + ('0' as int)) as char else (d - 10 + ('a' as int)) as char
  }

  /** All but the last digit of `n`. */
  function Quot(n: nat, radix: nat): (q: nat)
    requires 2 <= radix
    ensures n >= radix ==> q < n
  {
    n / radix
  }

  /** The last digit of `n`. */
  function Rem(n: nat, radix: nat): (d: nat)
    requires 2 <= radix
    ensures d < radix
  {
    n % radix
  }

  /** One more digit behind `n`. */
  function Shifted(n: nat, radix: nat, d: nat): nat { n * radix + d }

  lemma ShiftedParts(n: nat, radix: nat)
    requires 2 <= radix
    ensures Shifted(Quot(n, radix), radix, Rem(n, radix)) == n
  {
  }

  /** What a formatter prints: no sign, no leading zero, lower case. */
  function Digits(n: nat, radix: nat): (s: string)
    requires 2 <= radix <= 16
    ensures s != ""
    ensures forall c :: c in s ==> '0' <= c <= '9' || 'a' <= c <= 'f'
    ensures radix <= 10 ==> forall c :: c in s ==> '0' <= c <= '9'
    decreases n
  {
    hide Quot, Rem, DigitChar;
    if n < radix then [DigitChar(n)] else Digits(Quot(n, radix), radix) + [DigitChar(Rem(n, radix))]
  }

  function FromDigits(s: string, radix: nat): Option<nat> {
    if s == "" then Some(0)
    else
      var last := DigitValue(s[|s| - 1]);
      match FromDigits(s[..|s| - 1], radix)
      case None => None
      case Some(n) =>
        if last.Some? && last.value < radix then Some(Shifted(n, radix, last.value)) else None
  }

  /** `from_str_radix` for an unsigned type: one leading plus is allowed, at least one digit is
      needed, and a value above `max` is an error. */
  function ParseUnsigned(s: string, radix: nat, max: nat): (r: Option<nat>)
    ensures r.Some? ==> r.value <= max
  {
    var digits := if s != "" && s[0] == '+' then s[1..] else s;
    if digits == "" then None
    else
      match FromDigits(digits, radix)
      case None => None
      case Some(n) => if n <= max then Some(n) else None
  }

  lemma {:induction false} FromDigitsOfDigits(n: nat, radix: nat)
    requires 2 <= radix <= 16
    ensures FromDigits(Digits(n, radix), radix) == Some(n)
    decreases n
  {
    hide Quot, Rem, Shifted, DigitChar, DigitValue;
    var s := Digits(n, radix);
    if n < radix {
      assert s[..|s| - 1] == "" && FromDigits("", radix) == Some(0);
      assert Shifted(0, radix, n) == n by { ShiftedZero(radix, n); }
    } else {
      assert s[..|s| - 1] == Digits(Quot(n, radix), radix);
      FromDigitsOfDigits(Quot(n, radix), radix);
      ShiftedParts(n, radix);
    }
  }

  lemma ShiftedZero(radix: nat, d: nat)
    ensures Shifted(0, radix, d) == d
  {
  }

  /** Reading back a printed number gives it again, as far as it fits. */
  lemma ParseOfDigits(n: nat, radix: nat, max: nat)
    requires 2 <= radix <= 16
    ensures ParseUnsigned(Digits(n, radix), radix, max) == if n <= max then Some(n) else None
  {
    hide Digits, FromDigits;
    FromDigitsOfDigits(n, radix);
    var first := Digits(n, radix)[0];
    assert first in Digits(n, radix);
  }

  /** In decimal only digits are read, and nothing else stands between them. */
  lemma {:induction false} DecimalIff(s: string)
    ensures FromDigits(s, 10).Some? <==> forall i :: 0 <= i < |s| ==> '0' <= s[i] <= '9'
  {
    hide Shifted;
    if s != "" {
      DecimalIff(s[..|s| - 1]);
    }
  }

  /** In hexadecimal the letters to F are read as well, in either case. */
  lemma {:induction false} HexIff(s: string)
    ensures FromDigits(s, 16).Some?
            <==> forall i :: 0 <= i < |s| ==> '0' <= s[i] <= '9' || 'a' <= s[i] <= 'f' || 'A' <= s[i] <= 'F'
  {
    hide Shifted;
    if s != "" {
      HexIff(s[..|s| - 1]);
    }
  }

  /** The same letter, or its upper case. */
  predicate SameLetter(c: char, lower: char) {
    c == lower || ('a' <= lower <= 'f' && c as int == lower as int - 32)
  }

  lemma {:induction false} CaseIgnored(s: string, lower: string, radix: nat)
    requires |s| == |lower| && forall i :: 0 <= i < |s| ==> SameLetter(s[i], lower[i])
    ensures FromDigits(s, radix) == FromDigits(lower, radix)
  {
    hide Shifted;
    if s != "" {
      CaseIgnored(s[..|s| - 1], lower[..|s| - 1], radix);
      assert SameLetter(s[|s| - 1], lower[|s| - 1]);
    }
  }

  /** A number reads back in either case and behind one plus; a sign alone, or nothing, is no number. */
  lemma ParseOfVariants(n: nat, radix: nat, max: nat, s: string)
    requires 2 <= radix <= 16
    requires |s| == |Digits(n, radix)| && forall i :: 0 <= i < |s| ==> SameLetter(s[i], Digits(n, radix)[i])
    ensures ParseUnsigned(s, radix, max) == ParseUnsigned("+" + s, radix, max) == if n <= max then Some(n) else None
    ensures ParseUnsigned("", radix, max) == ParseUnsigned("+", radix, max) == None
  {
    hide Digits, FromDigits;
    FromDigitsOfDigits(n, radix);
    CaseIgnored(s, Digits(n, radix), radix);
    assert ("+" + s)[1..] == s && "+"[1..] == "";
    assert Digits(n, radix)[0] in Digits(n, radix) && SameLetter(s[0], Digits(n, radix)[0]);
  }
}
