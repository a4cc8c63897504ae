/** UTF-8 as section 3 of RFC 3629 defines it, and that the byte-at-a-time validator accepts exactly it. */
module Utf8Text {
  import opened Bytes

  /** The bytes of one Unicode scalar value, which is what a `char` is. */
  function EncodeChar(c: char): (s: seq<Byte>)
    ensures |s| >= 1
  {
    var n := c as int;
    if n < 0x80 then [n]
    else if n < 0x800 then [0xC0 + n / 0x40, 0x80 + n % 0x40]
    else if n < 0x1_0000 then [0xE0 + n / 0x1000, 0x80 + n / 0x40 % 0x40, 0x80 + n % 0x40]
    else [0xF0 + n / 0x4_0000, 0x80 + n / 0x1000 % 0x40, 0x80 + n / 0x40 % 0x40, 0x80 + n % 0x40]
  }

  function EncodeText(t: string): seq<Byte> {
    if t == "" then [] else EncodeChar(t[0]) + EncodeText(t[1..])
  }

  // ----- the validator, read from the front

  function RunFrom(q: Utf8State, s: seq<Byte>): Utf8State
    decreases |s|
  {
    if s == [] then q else RunFrom(Utf8Step(q, s[0]), s[1..])
  }

  lemma {:induction false} RunFromNext(q: Utf8State, s: seq<Byte>, b: Byte)
    ensures RunFrom(q, s + [b]) == Utf8Step(RunFrom(q, s), b)
    decreases |s|
  {
    hide Utf8Step;
    if s == [] {
      assert (s + [b])[1..] == [];
    } else {
      assert (s + [b])[1..] == s[1..] + [b];
      RunFromNext(Utf8Step(q, s[0]), s[1..], b);
    }
  }

  lemma {:induction false} RunIsRunFrom(s: seq<Byte>)
    ensures Utf8Run(s) == RunFrom(Start, s)
  {
    hide Utf8Step;
    if s != [] {
      RunIsRunFrom(s[..|s| - 1]);
      RunFromNext(Start, s[..|s| - 1], s[|s| - 1]);
      assert s[..|s| - 1] + [s[|s| - 1]] == s;
    }
  }

  lemma {:induction false} BadStays(s: seq<Byte>)
    ensures RunFrom(Bad, s) == Bad
  {
    if s != [] {
      BadStays(s[1..]);
    }
  }

  // ----- every encoding is accepted

  lemma RunTwo(q: Utf8State, a: Byte, b: Byte, rest: seq<Byte>)
    ensures RunFrom(q, [a, b] + rest) == RunFrom(Utf8Step(Utf8Step(q, a), b), rest)
  {
    hide Utf8Step;
    assert ([a, b] + rest)[1..] == [b] + rest && ([b] + rest)[1..] == rest;
  }

  lemma RunOne(q: Utf8State, a: Byte, rest: seq<Byte>)
    ensures RunFrom(q, [a] + rest) == RunFrom(Utf8Step(q, a), rest)
  {
    hide Utf8Step;
    assert ([a] + rest)[1..] == rest;
  }

  lemma ShortStates(n: int)
    requires 0 <= n < 0x800
    ensures if n < 0x80 then Utf8Step(Start, n) == Start
            else Utf8Step(Utf8Step(Start, 0xC0 + n / 0x40), 0x80 + n % 0x40) == Start
  {
  }

  lemma ThreeStates(n: int)
    requires 0x800 <= n < 0xD800 || 0xE000 <= n < 0x1_0000
    ensures Utf8Step(Utf8Step(Utf8Step(Start, 0xE0 + n / 0x1000), 0x80 + n / 0x40 % 0x40), 0x80 + n % 0x40) == Start
  {
    var high := n / 0x40;
    assert n / 0x1000 == high / 0x40;
  }

  lemma FourStates(n: int)
    requires 0x1_0000 <= n < 0x11_0000
    ensures Utf8Step(Utf8Step(Start, 0xF0 + n / 0x4_0000), 0x80 + n / 0x1000 % 0x40) == Need2
    ensures Utf8Step(Utf8Step(Need2, 0x80 + n / 0x40 % 0x40), 0x80 + n % 0x40) == Start
  {
    var high := n / 0x1000;
    assert n / 0x4_0000 == high / 0x40;
  }

  lemma CharRuns(c: char, rest: seq<Byte>)
    ensures RunFrom(Start, EncodeChar(c) + rest) == RunFrom(Start, rest)
  {
    hide Utf8Step, RunFrom;
    var n := c as int;
    if n < 0x80 {
      ShortStates(n);
      RunOne(Start, n, rest);
    } else if n < 0x800 {
      ShortStates(n);
      RunTwo(Start, 0xC0 + n / 0x40, 0x80 + n % 0x40, rest);
    } else if n < 0x1_0000 {
      ThreeStates(n);
      var a, b, d := 0xE0 + n / 0x1000, 0x80 + n / 0x40 % 0x40, 0x80 + n % 0x40;
      assert [a, b, d] + rest == [a, b] + ([d] + rest);
      RunTwo(Start, a, b, [d] + rest);
      RunOne(Utf8Step(Utf8Step(Start, a), b), d, rest);
    } else {
      FourStates(n);
      var a, b := 0xF0 + n / 0x4_0000, 0x80 + n / 0x1000 % 0x40;
      var d, e := 0x80 + n / 0x40 % 0x40, 0x80 + n % 0x40;
      assert [a, b, d, e] + rest == [a, b] + ([d, e] + rest);
      RunTwo(Start, a, b, [d, e] + rest);
      RunTwo(Need2, d, e, rest);
    }
  }

  lemma {:induction false} EncodedRuns(t: string)
    ensures RunFrom(Start, EncodeText(t)) == Start
  {
    hide EncodeChar;
    if t != "" {
      EncodedRuns(t[1..]);
      CharRuns(t[0], EncodeText(t[1..]));
    }
  }

  // ----- and nothing else

  /** A continuation byte in the given range is next. */
  lemma Continues(q: Utf8State, s: seq<Byte>)
    requires q != Start && RunFrom(q, s) == Start
    ensures s != [] && Utf8Step(q, s[0]) != Bad && RunFrom(Utf8Step(q, s[0]), s[1..]) == Start
  {
    if s != [] {
      BadStays(s[1..]);
    }
  }

  lemma Front<T>(a: seq<T>, s: seq<T>, k: nat)
    requires k == |a| <= |s| && forall i :: 0 <= i < k ==> a[i] == s[i]
    ensures s == a + s[k..]
  {
  }

  lemma FirstChar(s: seq<Byte>) returns (c: char)
    requires s != [] && RunFrom(Start, s) == Start
    ensures |EncodeChar(c)| <= |s| && s == EncodeChar(c) + s[|EncodeChar(c)|..]
    ensures RunFrom(Start, s[|EncodeChar(c)|..]) == Start
  {
    BadStays(s[1..]);
    var q := Utf8Step(Start, s[0]);
    if q == Start {
      c := s[0] as char;
      assert s == [s[0]] + s[1..];
    } else if q == Need1 {
      Continues(q, s[1..]);
      assert s[1..][1..] == s[2..];
      c := TwoBytes(s[0], s[1]);
      Front(EncodeChar(c), s, 2);
    } else if q == Need2 || q == AfterE0 || q == AfterED {
      Continues(q, s[1..]);
      assert s[1..][1..] == s[2..] && s[2..][1..] == s[3..];
      Continues(Need1, s[2..]);
      c := ThreeBytes(s[0], s[1], s[2]);
      Front(EncodeChar(c), s, 3);
    } else {
      Continues(q, s[1..]);
      assert s[1..][1..] == s[2..] && s[2..][1..] == s[3..] && s[3..][1..] == s[4..];
      Continues(Need2, s[2..]);
      Continues(Need1, s[3..]);
      c := FourBytes(s[0], s[1], s[2], s[3]);
      Front(EncodeChar(c), s, 4);
    }
  }

  lemma TwoBytes(a: Byte, b: Byte) returns (c: char)
    requires Utf8Step(Start, a) == Need1 && 0x80 <= b <= 0xBF
    ensures EncodeChar(c) == [a, b]
  {
    var n := (a - 0xC0) * 0x40 + (b - 0x80);
    c := n as char;
  }

  lemma ThreeBytes(a: Byte, b: Byte, d: Byte) returns (c: char)
    requires Utf8Step(Start, a) in {Need2, AfterE0, AfterED}
    requires Utf8Step(Utf8Step(Start, a), b) == Need1 && 0x80 <= d <= 0xBF
    ensures EncodeChar(c) == [a, b, d]
  {
    var n := (a - 0xE0) * 0x1000 + (b - 0x80) * 0x40 + (d - 0x80);
    assert n / 0x40 == (a - 0xE0) * 0x40 + (b - 0x80);
    c := n as char;
  }

  lemma FourBytes(a: Byte, b: Byte, d: Byte, e: Byte) returns (c: char)
    requires Utf8Step(Start, a) in {Need3, AfterF0, AfterF4}
    requires Utf8Step(Utf8Step(Start, a), b) == Need2 && 0x80 <= d <= 0xBF && 0x80 <= e <= 0xBF
    ensures EncodeChar(c) == [a, b, d, e]
  {
    var n := (a - 0xF0) * 0x4_0000 + (b - 0x80) * 0x1000 + (d - 0x80) * 0x40 + (e - 0x80);
    FourParts(n, a - 0xF0, b - 0x80, d - 0x80, e - 0x80);
    assert 0x1_0000 <= n < 0x11_0000;
    c := n as char;
  }

  lemma FourParts(n: int, a: int, b: int, d: int, e: int)
    requires 0 <= a < 8 && 0 <= b < 0x40 && 0 <= d < 0x40 && 0 <= e < 0x40
    requires n == a * 0x4_0000 + b * 0x1000 + d * 0x40 + e
    ensures n / 0x4_0000 == a && n / 0x1000 % 0x40 == b && n / 0x40 % 0x40 == d && n % 0x40 == e
  {
    assert n / 0x40 == a * 0x1000 + b * 0x40 + d;
    assert n / 0x1000 == a * 0x40 + b;
  }

  lemma {:induction false} Decoded(s: seq<Byte>) returns (t: string)
    requires RunFrom(Start, s) == Start
    ensures EncodeText(t) == s
    decreases |s|
  {
    if s == [] {
      t := "";
    } else {
      hide EncodeChar, RunFrom;
      var c := FirstChar(s);
      var rest := Decoded(s[|EncodeChar(c)|..]);
      t := [c] + rest;
      assert t[1..] == rest;
    }
  }

  /** A byte string passes for text exactly when it is the UTF-8 of some string of scalar values. */
  lemma ValidIffEncoded(s: seq<Byte>)
    ensures ValidUtf8(s) <==> exists t :: EncodeText(t) == s
  {
    hide EncodeText, RunFrom, Utf8Run;
    RunIsRunFrom(s);
    if ValidUtf8(s) {
      var t := Decoded(s);
    }
    if t :| EncodeText(t) == s {
      EncodedRuns(t);
    }
  }
}
