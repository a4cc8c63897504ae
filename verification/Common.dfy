/** Options, results and the few facts about sequences that every component uses. */
module Common {

  datatype Option<+T> = None | Some(value: T)

  datatype Result<+T, +E> = Ok(value: T) | Err(error: E)

  /** No element occurs twice. */
  ghost predicate Distinct<T>(s: seq<T>) {
    forall i, j :: 0 <= i < j < |s| ==> s[i] != s[j]
  }

  /** `s` with every occurrence of `x` taken out, order kept. */
  function Without<T(==,!new)>(s: seq<T>, x: T): (r: seq<T>)
    ensures x !in r
    ensures forall y :: y in r <==> y in s && y != x
    ensures Distinct(s) ==> Distinct(r)
    ensures |r| <= |s|
    ensures x in s ==> |r| < |s|
  {
    if s == [] then []
    else
      var rest := Without(s[1..], x);
      assert Distinct(s) ==> Distinct(s[1..]) && s[0] !in s[1..];
      if s[0] == x then rest else [s[0]] + rest
  }

  /** Taking out an absent element changes nothing. */
  lemma {:induction false} WithoutAbsent<T(!new)>(s: seq<T>, x: T)
    requires x !in s
    ensures Without(s, x) == s
  {
    if s != [] {
      WithoutAbsent(s[1..], x);
    }
  }

  /** Taking out the element at position `i` of a duplicate-free sequence closes the gap. */
  lemma {:induction false} WithoutAt<T(!new)>(s: seq<T>, i: nat)
    requires Distinct(s)
    requires i < |s|
    ensures Without(s, s[i]) == s[..i] + s[i + 1..]
  {
    if i == 0 {
      WithoutAbsent(s[1..], s[0]);
    } else {
      assert s[1..][i - 1] == s[i];
      WithoutAt(s[1..], i - 1);
      assert s[..i] + s[i + 1..] == [s[0]] + (s[1..][..i - 1] + s[1..][i..]);
    }
  }

  lemma SliceOfSlice<T>(s: seq<T>, a: nat, b: nat, i: nat, j: nat)
    requires a <= b <= |s| && i <= j <= b - a
    ensures s[a..b][i..j] == s[a + i..a + j]
  {
    var u, v := s[a..b][i..j], s[a + i..a + j];
    assert forall k :: 0 <= k < |u| ==> u[k] == v[k];
  }

  /** A duplicate-free sequence of numbers below `n` has at most `n` elements. */
  lemma DistinctBelow(s: seq<nat>, n: nat)
    requires Distinct(s)
    requires forall x :: x in s ==> x < n
    ensures |s| <= n
    decreases n
  {
    if n == 0 {
      assert forall i :: 0 <= i < |s| ==> s[i] in s;
    } else {
      var t: seq<nat> := Without<nat>(s, n - 1);
      DistinctBelow(t, n - 1);
      if n - 1 in s {
        var i :| 0 <= i < |s| && s[i] == n - 1;
        WithoutAt<nat>(s, i);
      } else {
        WithoutAbsent<nat>(s, n - 1);
      }
    }
  }

  /** A sequence that contains every number below `n` has at least `n` elements. */
  lemma CoversBelow(s: seq<nat>, n: nat)
    requires forall x :: 0 <= x < n ==> x in s
    ensures n <= |s|
    decreases n
  {
    if n > 0 {
      CoversBelow(Without<nat>(s, n - 1), n - 1);
    }
  }
}
