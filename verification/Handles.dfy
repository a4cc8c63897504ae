/**
 A client rail's address handles: bounded, least recently named out first. What is held is stated
 against the whole history of names, so that losing a handle can be read off that history.
 */
module Handles {
  import opened Common

  /** The distinct names of a history, the one named longest ago first. */
  function Recency<Gid(==,!new)>(h: seq<Gid>): (r: seq<Gid>)
    ensures Distinct(r)
    ensures forall g :: g in r <==> g in h
  {
    if h == [] then []
    else Without(Recency(h[..|h| - 1]), h[|h| - 1]) + [h[|h| - 1]]
  }

  /** The last `n` elements, or all of a shorter sequence. */
  function LastOf<T>(s: seq<T>, n: nat): (r: seq<T>)
    ensures |r| == if |s| <= n then |s| else n
  {
    if |s| <= n then s else s[|s| - n..]
  }

  /** What a cache bounded by `bound` holds after the names `h`, oldest first. */
  function Held<Gid(==,!new)>(h: seq<Gid>, bound: nat): seq<Gid> { LastOf(Recency(h), bound) }

  /** Name one writer: it becomes the newest, and the oldest goes if there is no room. */
  function Renew<Gid(==,!new)>(held: seq<Gid>, g: Gid, bound: nat): seq<Gid>
    requires bound >= 1
  {
    if g in held then Without(held, g) + [g] else LastOf(held, bound - 1) + [g]
  }

  /** The names a pass over `rails` adds: every rail that is held, and every rail whose handle
      could be built. */
  function InstallAll<Gid(==,!new)>(h: seq<Gid>, bound: nat, rails: seq<Gid>, built: seq<bool>): seq<Gid>
    requires |built| == |rails|
  {
    if rails == [] then h
    else
      var k := |rails| - 1;
      var before := InstallAll(h, bound, rails[..k], built[..k]);
      if rails[k] in Held(before, bound) || built[k] then before + [rails[k]] else before
  }

  lemma {:induction false} WithoutConcat<Gid(!new)>(a: seq<Gid>, b: seq<Gid>, g: Gid)
    ensures Without(a + b, g) == Without(a, g) + Without(b, g)
  {
    if a == [] {
      assert a + b == b;
    } else {
      assert (a + b)[1..] == a[1..] + b;
      WithoutConcat(a[1..], b, g);
    }
  }

  lemma {:induction false} WithoutOnce<Gid(!new)>(s: seq<Gid>, g: Gid)
    requires Distinct(s) && g in s
    ensures |Without(s, g)| == |s| - 1
  {
    var i :| 0 <= i < |s| && s[i] == g;
    WithoutAt(s, i);
  }

  lemma LastOfSuffix<T>(p: seq<T>, s: seq<T>)
    ensures LastOf(p + s, |s|) == s
  {
    assert (p + s)[|p|..] == s;
  }

  lemma RecencyOfNext<Gid(!new)>(h: seq<Gid>, g: Gid)
    ensures Recency(h + [g]) == Without(Recency(h), g) + [g]
  {
    assert (h + [g])[..|h|] == h;
  }

  /** Renewing what is held is what the longer history holds. */
  lemma HeldStep<Gid(!new)>(h: seq<Gid>, g: Gid, bound: nat)
    requires bound >= 1
    ensures Held(h + [g], bound) == Renew(Held(h, bound), g, bound)
  {
    hide Recency, Without;
    var r, held := Recency(h), Held(h, bound);
    RecencyOfNext(h, g);
    var gone := r[..|r| - |held|];
    assert r == gone + held;
    WithoutConcat(gone, held, g);
    if g in held {
      HeldRenewed(r, gone, held, g, bound);
    } else {
      WithoutAbsent(held, g);
      NewRenewed(Without(gone, g), held, g, bound);
    }
  }

  lemma HeldRenewed<Gid(!new)>(r: seq<Gid>, gone: seq<Gid>, held: seq<Gid>, g: Gid, bound: nat)
    requires Distinct(r) && r == gone + held && g in held
    requires |held| == bound || (|held| < bound && gone == [])
    requires Without(r, g) == Without(gone, g) + Without(held, g)
    ensures LastOf(Without(r, g) + [g], bound) == Without(held, g) + [g]
  {
    hide Without;
    assert g !in gone by { SplitDistinct(gone, held, g); }
    WithoutAbsent(gone, g);
    assert Distinct(held) by { SplitDistinct(gone, held, g); }
    WithoutOnce(held, g);
    var next := Without(held, g) + [g];
    assert Without(r, g) + [g] == gone + next;
    LastOfSuffix(gone, next);
  }

  lemma SplitDistinct<Gid(!new)>(a: seq<Gid>, b: seq<Gid>, g: Gid)
    requires Distinct(a + b) && g in b
    ensures g !in a && Distinct(b)
  {
    var r := a + b;
    assert forall i :: 0 <= i < |b| ==> b[i] == r[|a| + i];
    assert forall i :: 0 <= i < |a| ==> a[i] == r[i];
  }

  lemma NewRenewed<Gid(!new)>(front: seq<Gid>, held: seq<Gid>, g: Gid, bound: nat)
    requires bound >= 1
    requires |held| == bound || (|held| < bound && front == [])
    ensures LastOf(front + held + [g], bound) == LastOf(held, bound - 1) + [g]
  {
    if |held| == bound {
      var kept := held[1..] + [g];
      assert front + held + [g] == (front + [held[0]]) + kept;
      LastOfSuffix(front + [held[0]], kept);
    } else {
      assert front + held + [g] == held + [g];
    }
  }

  /** Behind a name not repeated since, a history's recency order is that of what came since. */
  lemma {:induction false} RecencyTail<Gid(!new)>(a: seq<Gid>, g: Gid, b: seq<Gid>) returns (front: seq<Gid>)
    requires g !in b
    ensures Recency(a + [g] + b) == front + ([g] + Recency(b))
    decreases |b|
  {
    hide Recency, Without;
    if b == [] {
      RecencyOfNext(a, g);
      assert a + [g] + b == a + [g];
      assert Recency(b) == [] by { RecencyOfNone(b); }
      front := Without(Recency(a), g);
    } else {
      var c, last := b[..|b| - 1], b[|b| - 1];
      assert b == c + [last];
      assert a + [g] + b == (a + [g] + c) + [last];
      var was := RecencyTail(a, g, c);
      RecencyOfNext(a + [g] + c, last);
      RecencyOfNext(c, last);
      WithoutConcat(was, [g] + Recency(c), last);
      WithoutConcat([g], Recency(c), last);
      WithoutAbsent([g], last);
      front := Without(was, last);
    }
  }

  lemma RecencyOfNone<Gid(!new)>(h: seq<Gid>)
    requires h == []
    ensures Recency(h) == []
  {
  }

  ghost function Names<Gid(!new)>(h: seq<Gid>): set<Gid> { set g | g in h }

  lemma {:induction false} DistinctCount<Gid(!new)>(s: seq<Gid>)
    requires Distinct(s)
    ensures |Names(s)| == |s|
  {
    if s != [] {
      var k := |s| - 1;
      DistinctCount(s[..k]);
      assert Names(s) == Names(s[..k]) + {s[k]};
      assert s[k] !in Names(s[..k]);
    }
  }

  /** A name is still held exactly when fewer than `bound` others were named since it was. */
  lemma HeldIffRecent<Gid(!new)>(a: seq<Gid>, g: Gid, b: seq<Gid>, bound: nat)
    requires g !in b
    ensures g in Held(a + [g] + b, bound) <==> |Names(b)| < bound
  {
    hide Recency;
    var r, since := Recency(a + [g] + b), Recency(b);
    var front := RecencyTail(a, g, b);
    DistinctCount(since);
    assert Names(since) == Names(b);
    InLastOf(front, g, since, bound);
  }

  lemma InLastOf<Gid(!new)>(front: seq<Gid>, g: Gid, since: seq<Gid>, bound: nat)
    requires Distinct(front + ([g] + since))
    ensures g in LastOf(front + ([g] + since), bound) <==> |since| < bound
  {
    var r := front + ([g] + since);
    assert r[|front|] == g;
    var held := LastOf(r, bound);
    var from := |r| - |held|;
    assert forall i :: 0 <= i < |held| ==> held[i] == r[from + i];
    assert |since| < bound ==> held[|front| - from] == g;
  }

  /** No pass forgets a writer while no more than `bound` writers have ever been named. */
  lemma NothingLostWithinBound<Gid(!new)>(h: seq<Gid>, bound: nat)
    requires |Names(h)| <= bound
    ensures forall g :: g in h <==> g in Held(h, bound)
  {
    DistinctCount(Recency(h));
    assert Names(Recency(h)) == Names(h);
  }

  // ----- how often a handle is built

  /** The writers a pass asks a handle for. */
  function Builds<Gid(==,!new)>(h: seq<Gid>, bound: nat, rails: seq<Gid>, built: seq<bool>): seq<Gid>
    requires |built| == |rails|
  {
    if rails == [] then []
    else
      var k := |rails| - 1;
      var before := Builds(h, bound, rails[..k], built[..k]);
      if rails[k] in Held(InstallAll(h, bound, rails[..k], built[..k]), bound) then before else before + [rails[k]]
  }

  /** How many of the handles a pass asks for could not be built. */
  function Failures<Gid(==,!new)>(h: seq<Gid>, bound: nat, rails: seq<Gid>, built: seq<bool>): nat
    requires |built| == |rails|
  {
    if rails == [] then 0
    else
      var k := |rails| - 1;
      var before := Failures(h, bound, rails[..k], built[..k]);
      if rails[k] in Held(InstallAll(h, bound, rails[..k], built[..k]), bound) || built[k] then before else before + 1
  }

  /** What one more rail adds to the handles asked for and to those that failed. */
  lemma AskedStep<Gid(!new)>(h: seq<Gid>, bound: nat, rails: seq<Gid>, built: seq<bool>, i: nat)
    requires i < |rails| == |built|
    ensures var held := rails[i] in Held(InstallAll(h, bound, rails[..i], built[..i]), bound);
            && |Builds(h, bound, rails[..i + 1], built[..i + 1])|
               == |Builds(h, bound, rails[..i], built[..i])| + (if held then 0 else 1)
            && Failures(h, bound, rails[..i + 1], built[..i + 1])
               == Failures(h, bound, rails[..i], built[..i]) + (if held || built[i] then 0 else 1)
  {
    hide Held, InstallAll;
    assert rails[..i + 1][..i] == rails[..i] && built[..i + 1][..i] == built[..i];
  }

  lemma {:induction false} LastNaming<Gid(!new)>(s: seq<Gid>, g: Gid) returns (a: seq<Gid>, b: seq<Gid>)
    requires g in s
    ensures s == a + [g] + b && g !in b
  {
    var k := |s| - 1;
    if s[k] == g {
      a, b := s[..k], [];
    } else {
      a, b := LastNaming(s[..k], g);
      b := b + [s[k]];
    }
  }

  lemma {:induction false} AllBuiltNamesAll<Gid(!new)>(h: seq<Gid>, bound: nat, rails: seq<Gid>, built: seq<bool>)
    requires |built| == |rails| && (forall i :: 0 <= i < |built| ==> built[i])
    ensures InstallAll(h, bound, rails, built) == h + rails
  {
    hide Held;
    if rails != [] {
      var k := |rails| - 1;
      AllBuiltNamesAll(h, bound, rails[..k], built[..k]);
      assert rails[..k] + [rails[k]] == rails;
    }
  }

  lemma {:induction false} SubsetSize<T>(a: set<T>, b: set<T>)
    requires a <= b
    ensures |a| <= |b|
  {
    if a != {} {
      var x :| x in a;
      SubsetSize(a - {x}, b - {x});
    }
  }

  lemma OneMoreBuild<Gid(!new)>(asked: seq<Gid>, before: seq<Gid>, g: Gid)
    requires Distinct(asked) && (forall x :: x in asked ==> x in before) && g !in before
    ensures Distinct(asked + [g])
  {
    assert forall i :: 0 <= i < |asked| ==> asked[i] in asked;
  }

  lemma {:induction false} BuildsWithin<Gid(!new)>(h: seq<Gid>, bound: nat, rails: seq<Gid>, built: seq<bool>)
    requires |built| == |rails| && Distinct(rails)
    ensures Distinct(Builds(h, bound, rails, built))
    ensures forall g :: g in Builds(h, bound, rails, built) ==> g in rails
  {
    hide Held, InstallAll;
    if rails != [] {
      var k := |rails| - 1;
      BuildsWithin(h, bound, rails[..k], built[..k]);
      assert rails[k] !in rails[..k];
      OneMoreBuild(Builds(h, bound, rails[..k], built[..k]), rails[..k], rails[k]);
    }
  }

  function Outcomes(n: nat, ok: bool): (r: seq<bool>)
    ensures |r| == n && forall i :: 0 <= i < n ==> r[i] == ok
  {
    if n == 0 then [] else Outcomes(n - 1, ok) + [ok]
  }

  /** When nothing can be built, everything is asked for. */
  lemma {:induction false} AllAskedFor<Gid(!new)>(bound: nat, rails: seq<Gid>)
    ensures InstallAll([], bound, rails, Outcomes(|rails|, false)) == []
    ensures Builds([], bound, rails, Outcomes(|rails|, false)) == rails
  {
    if rails != [] {
      var k := |rails| - 1;
      assert Outcomes(|rails|, false)[..k] == Outcomes(k, false);
      AllAskedFor(bound, rails[..k]);
      assert rails[..k] + [rails[k]] == rails;
    }
  }

  /** Whatever was held and whatever fails, each writer's handle is asked for at most once exactly
      when no writer is named twice. */
  lemma BuiltOnceIffUnrepeated<Gid(!new)>(bound: nat, rails: seq<Gid>)
    ensures (forall h, built | |built| == |rails| :: Distinct(Builds(h, bound, rails, built))) <==> Distinct(rails)
  {
    hide Builds, Distinct;
    if Distinct(rails) {
      forall h, built | |built| == |rails|
        ensures Distinct(Builds(h, bound, rails, built))
      {
        BuildsWithin(h, bound, rails, built);
      }
    } else {
      AllAskedFor(bound, rails);
      assert !Distinct(Builds([], bound, rails, Outcomes(|rails|, false)));
    }
  }

  /** Positions `i` and `j` are not successive namings of one writer, or fewer than `bound` others
      are named between them. */
  ghost predicate NearAt<Gid(!new)>(rails: seq<Gid>, bound: nat, i: nat, j: nat)
    requires i < j < |rails|
  {
    rails[i] == rails[j] && rails[i] !in rails[i + 1..j] ==> |Names(rails[i + 1..j])| < bound
  }

  ghost predicate Near<Gid(!new)>(rails: seq<Gid>, bound: nat) {
    forall i, j :: 0 <= i < j < |rails| ==> NearAt(rails, bound, i, j)
  }

  /** A writer named again soon enough is still held. */
  lemma NearHeld<Gid(!new)>(h: seq<Gid>, bound: nat, rails: seq<Gid>)
    requires Near(rails, bound) && rails != [] && rails[|rails| - 1] in rails[..|rails| - 1]
    ensures rails[|rails| - 1] in Held(h + rails[..|rails| - 1], bound)
  {
    hide Held, Names;
    var k := |rails| - 1;
    var before, g := rails[..k], rails[k];
    var a, b := LastNaming(before, g);
    assert NearAt(rails, bound, |a|, k);
    assert rails[|a|] == before[|a|] == g && rails[|a| + 1..k] == before[|a| + 1..] == b;
    assert h + before == (h + a) + [g] + b;
    HeldIffRecent(h + a, g, b, bound);
  }

  lemma BuildsNext<Gid(!new)>(h: seq<Gid>, bound: nat, rails: seq<Gid>)
    requires rails != []
    ensures var before := rails[..|rails| - 1];
            var g, asked := rails[|rails| - 1], Builds(h, bound, before, Outcomes(|before|, true));
            Builds(h, bound, rails, Outcomes(|rails|, true)) ==
            if g in Held(h + before, bound) then asked else asked + [g]
  {
    hide Held, InstallAll;
    var k := |rails| - 1;
    assert Outcomes(|rails|, true)[..k] == Outcomes(k, true);
    AllBuiltNamesAll(h, bound, rails[..k], Outcomes(k, true));
  }

  /** Only rails of the pass are asked for. */
  lemma {:induction false} BuildsAmong<Gid(!new)>(h: seq<Gid>, bound: nat, rails: seq<Gid>, built: seq<bool>)
    requires |built| == |rails|
    ensures forall g :: g in Builds(h, bound, rails, built) ==> g in rails
  {
    hide Held, InstallAll;
    if rails != [] {
      BuildsAmong(h, bound, rails[..|rails| - 1], built[..|rails| - 1]);
    }
  }

  lemma {:induction false} NearBuildsOnce<Gid(!new)>(h: seq<Gid>, bound: nat, rails: seq<Gid>)
    requires Near(rails, bound)
    ensures Distinct(Builds(h, bound, rails, Outcomes(|rails|, true)))
  {
    if rails != [] {
      hide Held, InstallAll, Builds, Near, Distinct, Outcomes;
      var k := |rails| - 1;
      var before, g := rails[..k], rails[k];
      NearPrefix(rails, bound, k);
      NearBuildsOnce(h, bound, before);
      BuildsNext(h, bound, rails);
      if g in before {
        NearHeld(h, bound, rails);
      } else {
        BuildsAmong(h, bound, before, Outcomes(k, true));
        OneMoreBuild(Builds(h, bound, before, Outcomes(k, true)), before, g);
      }
    }
  }

  lemma NearPrefix<Gid(!new)>(rails: seq<Gid>, bound: nat, k: nat)
    requires Near(rails, bound) && k <= |rails|
    ensures Near(rails[..k], bound)
  {
    hide Names;
    forall i, j | 0 <= i < j < k
      ensures NearAt(rails[..k], bound, i, j)
    {
      assert NearAt(rails, bound, i, j);
      assert rails[..k][i + 1..j] == rails[i + 1..j];
    }
  }

  /** From an empty cache, every writer a pass names is asked for. */
  lemma {:induction false} FirstNamingBuilt<Gid(!new)>(bound: nat, rails: seq<Gid>, g: Gid)
    requires g in rails
    ensures g in Builds([], bound, rails, Outcomes(|rails|, true))
  {
    hide Builds;
    var before := rails[..|rails| - 1];
    BuildsNext([], bound, rails);
    if g in before {
      FirstNamingBuilt(bound, before, g);
    } else {
      assert [] + before == before;
      assert g !in Held(before, bound);
    }
  }

  lemma {:induction false} BuildsGrow<Gid(!new)>(bound: nat, rails: seq<Gid>, m: nat)
    requires m <= |rails|
    ensures Builds([], bound, rails[..m], Outcomes(m, true)) <= Builds([], bound, rails, Outcomes(|rails|, true))
  {
    hide Held, Builds;
    if m < |rails| {
      var k := |rails| - 1;
      BuildsNext([], bound, rails);
      assert rails[..k][..m] == rails[..m];
      BuildsGrow(bound, rails[..k], m);
    } else {
      assert rails[..m] == rails;
    }
  }

  /** Two successive namings too far apart build the handle again. */
  lemma FarBuildsTwice<Gid(!new)>(bound: nat, rails: seq<Gid>, i: nat, j: nat)
    requires i < j < |rails| && rails[i] == rails[j] && rails[i] !in rails[i + 1..j]
    requires |Names(rails[i + 1..j])| >= bound
    ensures !Distinct(Builds([], bound, rails, Outcomes(|rails|, true)))
  {
    hide Held, Builds;
    var g, before := rails[j], rails[..j];
    assert before[i] == g;
    FirstNamingBuilt(bound, before, g);
    assert rails[..j + 1][..j] == before;
    BuildsNext([], bound, rails[..j + 1]);
    assert [] + before == rails[..i] + [g] + rails[i + 1..j];
    HeldIffRecent(rails[..i], g, rails[i + 1..j], bound);
    BuildsGrow(bound, rails, j + 1);
    var first, all := Builds([], bound, before, Outcomes(j, true)), Builds([], bound, rails, Outcomes(|rails|, true));
    var x :| 0 <= x < |first| && first[x] == g;
    assert all[x] == (first + [g])[x] && all[|first|] == (first + [g])[|first|];
  }

  /** When every handle can be built, each is built at most once, whatever was held, exactly when no
      two successive namings of a writer have `bound` or more others between them. */
  lemma BuiltOnceIffNear<Gid(!new)>(bound: nat, rails: seq<Gid>)
    ensures (forall h :: Distinct(Builds(h, bound, rails, Outcomes(|rails|, true)))) <==> Near(rails, bound)
  {
    hide Builds, Distinct;
    if Near(rails, bound) {
      forall h: seq<Gid>
        ensures Distinct(Builds(h, bound, rails, Outcomes(|rails|, true)))
      {
        NearBuildsOnce(h, bound, rails);
      }
    } else {
      var i, j :| 0 <= i < j < |rails| && !NearAt(rails, bound, i, j);
      FarBuildsTwice(bound, rails, i, j);
    }
  }

  /** In particular when the pass names no more than `bound` writers. */
  lemma BuiltAtMostOnce<Gid(!new)>(h: seq<Gid>, bound: nat, rails: seq<Gid>, built: seq<bool>)
    requires |built| == |rails| && (forall i :: 0 <= i < |built| ==> built[i])
    requires |Names(rails)| <= bound
    ensures Distinct(Builds(h, bound, rails, built))
  {
    hide Builds, Distinct;
    assert built == Outcomes(|rails|, true);
    forall i, j | 0 <= i < j < |rails|
      ensures NearAt(rails, bound, i, j)
    {
      if rails[i] !in rails[i + 1..j] {
        assert Names(rails[i + 1..j]) <= Names(rails) - {rails[i]};
        SubsetSize(Names(rails[i + 1..j]), Names(rails) - {rails[i]});
      }
    }
    NearBuildsOnce(h, bound, rails);
  }

  /** A failed handle is asked for again in the same pass. */
  lemma FailedBuildIsRetried<Gid(!new)>(g: Gid, bound: nat)
    requires bound >= 1
    ensures Builds([], bound, [g, g], [false, false]) == [g, g]
  {
    AllAskedFor(bound, [g, g]);
    assert Outcomes(2, false) == [false, false];
  }

  /** So is one that the same pass evicted, although every build succeeds. */
  lemma EvictedHandleIsRebuilt<Gid(!new)>(g: Gid, other: Gid)
    requires g != other
    ensures !Distinct(Builds([], 1, [g, other, g], [true, true, true]))
  {
    var rails := [g, other, g];
    assert rails[1..2] == [other] && other in Names([other]);
    assert |Names(rails[1..2])| >= 1;
    assert Outcomes(3, true) == [true, true, true];
    FarBuildsTwice(1, rails, 0, 2);
  }

  // ----- the cache

  /** What one pass did. */
  datatype Installed = Installed(created: nat, alreadyHeld: nat, failed: nat, evicted: nat)

  /** The stamps spell the order of `held`, oldest first. */
  ghost predicate Ordered<Gid(!new)>(held: seq<Gid>, entries: map<Gid, nat>, clock: nat) {
    && Distinct(held)
    && (forall g :: g in held <==> g in entries)
    && (forall i, j :: 0 <= i < j < |held| ==> entries[held[i]] < entries[held[j]])
    && (forall g :: g in entries ==> entries[g] <= clock)
  }

  lemma OrderedSize<Gid(!new)>(held: seq<Gid>, entries: map<Gid, nat>, clock: nat)
    requires Ordered(held, entries, clock)
    ensures |entries| == |held|
  {
    DistinctCount(held);
    assert entries.Keys == Names(held);
  }

  lemma StampOrdered<Gid(!new)>(held: seq<Gid>, entries: map<Gid, nat>, clock: nat, g: Gid)
    requires Ordered(held, entries, clock)
    ensures Ordered(Without(held, g) + [g], entries[g := clock + 1], clock + 1)
  {
    SubOrder(held, g, entries);
  }

  lemma DropOrdered<Gid(!new)>(held: seq<Gid>, entries: map<Gid, nat>, clock: nat)
    requires Ordered(held, entries, clock) && |held| > 0
    ensures Ordered(held[1..], entries - {held[0]}, clock)
  {
    var rest := held[1..];
    assert forall i :: 0 <= i < |rest| ==> rest[i] == held[i + 1];
    assert forall g :: g in held <==> g == held[0] || g in rest;
  }

  class HandleCache<Gid(==,!new)> {
    /** When each held name was last named. */
    var entries: map<Gid, nat>
    const bound: nat
    var clock: nat
    var created: nat
    var evicted: nat
    var warned: bool
    /** The held names, oldest first, and every name so far. */
    ghost var held: seq<Gid>
    ghost var history: seq<Gid>

    ghost predicate Valid()
      reads this
      ensures Valid() ==> held == Held(history, bound)
    {
      var whole :=
        && bound >= 1 && Ordered(held, entries, clock)
        && held == Held(history, bound) && created == |held| + evicted;
      whole
    }

    constructor (limit: nat)
      ensures Valid() && bound == (if limit == 0 then 1 else limit)
      ensures history == [] && entries == map[] && created == evicted == 0
    {
      bound := if limit == 0 then 1 else limit;
      entries, clock, created, evicted, warned := map[], 0, 0, 0, false;
      held, history := [], [];
    }

    /** The entry with the least stamp, in whatever order the entries are looked at. */
    method Oldest() returns (victim: Gid)
      requires Ordered(held, entries, clock) && |held| > 0
      ensures victim == held[0]
    {
      ghost var first := held[0];
      assert first in entries;
      assert forall g :: g in entries && g != first ==> entries[first] < entries[g];
      victim :| victim in entries;
      var left := entries.Keys - {victim};
      while left != {}
        invariant left <= entries.Keys && victim in entries
        invariant first !in left ==> victim == first
        decreases |left|
      {
        var g :| g in left;
        left := left - {g};
        if entries[g] < entries[victim] {
          victim := g;
        }
      }
    }

    method DropOldest()
      requires Ordered(held, entries, clock) && |held| > 0
      modifies this
      ensures Ordered(held, entries, clock) && held == old(held)[1..] && evicted == old(evicted) + 1
      ensures clock == old(clock) && created == old(created) && history == old(history)
      ensures warned == old(warned)
    {
      hide Ordered;
      DropOrdered(held, entries, clock);
      var victim := Oldest();
      entries := entries - {victim};
      held := held[1..];
      evicted := evicted + 1;
    }

    /** Drop the oldest names until one more fits. */
    method MakeRoom() returns (gone: nat)
      requires Ordered(held, entries, clock) && bound >= 1
      modifies this
      ensures Ordered(held, entries, clock) && held == LastOf(old(held), bound - 1)
      ensures gone == |old(held)| - |held| && evicted == old(evicted) + gone
      ensures clock == old(clock) && created == old(created) && history == old(history)
      ensures warned == (old(warned) || gone > 0)
    {
      hide Ordered;
      gone := 0;
      OrderedSize(held, entries, clock);
      while |entries| >= bound
        invariant Ordered(held, entries, clock) && |entries| == |held|
        invariant gone <= |old(held)| && held == old(held)[gone..]
        invariant gone == 0 || |held| >= bound - 1
        invariant evicted == old(evicted) + gone
        invariant clock == old(clock) && created == old(created) && history == old(history)
        invariant warned == old(warned)
        decreases |held|
      {
        DropOldest();
        gone := gone + 1;
        OrderedSize(held, entries, clock);
      }
      if gone > 0 {
        warned := true;
      }
    }

    /** Stamp `g` as the newest, whether it was held or not. */
    method Stamp(g: Gid)
      requires Ordered(held, entries, clock)
      modifies this
      ensures Ordered(held, entries, clock) && held == Without(old(held), g) + [g]
      ensures created == old(created) && evicted == old(evicted) && history == old(history)
      ensures warned == old(warned) && clock == old(clock) + 1
    {
      hide Ordered, Without;
      StampOrdered(held, entries, clock, g);
      clock := clock + 1;
      entries := entries[g := clock];
      held := Without(held, g) + [g];
    }

    lemma Parts()
      ensures Valid() <==> && bound >= 1 && Ordered(held, entries, clock)
                           && held == Held(history, bound) && created == |held| + evicted
    {
      hide Ordered, Held;
    }

    /** Install one writer: renewed if held, otherwise given a handle if one can be built. */
    method InstallOne(g: Gid, built: bool) returns (done: Installed)
      requires Valid()
      modifies this
      ensures Valid() && history == if g in old(held) || built then old(history) + [g] else old(history)
      ensures done == if g in old(held) then Installed(0, 1, 0, 0)
                      else if built then Installed(1, 0, 0, if |old(held)| < bound then 0 else 1)
                      else Installed(0, 0, 1, 0)
      ensures created == old(created) + done.created && evicted == old(evicted) + done.evicted
    {
      hide *;
      Parts();
      HeldAsEntry(held, entries, clock, g);
      HeldSize(history, bound);
      if g in entries {
        RenewHeld(history, g, bound);
        Stamp(g);
        history := history + [g];
        done := Installed(0, 1, 0, 0);
      } else if built {
        RenewNew(history, g, bound);
        var gone := MakeRoom();
        WithoutAbsent(held, g);
        Stamp(g);
        created := created + 1;
        history := history + [g];
        done := Installed(1, 0, 0, gone);
      } else {
        done := Installed(0, 0, 1, 0);
      }
      Parts();
    }

    /** Install every named writer, in order. */
    method InstallRails(rails: seq<Gid>, built: seq<bool>) returns (done: Installed)
      requires Valid() && |built| == |rails|
      modifies this
      ensures Valid() && history == InstallAll(old(history), bound, rails, built)
      ensures done.created + done.failed == |Builds(old(history), bound, rails, built)|
      ensures done.failed == Failures(old(history), bound, rails, built)
      ensures done.created + done.alreadyHeld + done.failed == |rails|
      ensures created == old(created) + done.created && evicted == old(evicted) + done.evicted
    {
      hide Valid, Held, Builds, Failures, InstallAll;
      ghost var start := history;
      NoRails(start, bound, rails, built);
      done := Installed(0, 0, 0, 0);
      for i := 0 to |rails|
        invariant Valid() && Counted(start, bound, rails[..i], built[..i], history, done)
        invariant created == old(created) + done.created && evicted == old(evicted) + done.evicted
      {
        ghost var before := history;
        var one := InstallOne(rails[i], built[i]);
        CountOne(start, bound, rails, built, i, before, done, one);
        done := Installed(done.created + one.created, done.alreadyHeld + one.alreadyHeld,
                          done.failed + one.failed, done.evicted + one.evicted);
      }
      assert rails[..|rails|] == rails && built[..|rails|] == built;
    }
  }

  /** What a pass over `rails` has done to the names and the counts. */
  ghost predicate Counted<Gid(!new)>(h: seq<Gid>, bound: nat, rails: seq<Gid>, built: seq<bool>,
                                     history: seq<Gid>, done: Installed)
    requires |built| == |rails|
  {
    && history == InstallAll(h, bound, rails, built)
    && done.created + done.failed == |Builds(h, bound, rails, built)|
    && done.failed == Failures(h, bound, rails, built)
    && done.created + done.alreadyHeld + done.failed == |rails|
  }

  /** One more rail is held, built or failed, and counted so. */
  lemma CountOne<Gid(!new)>(h: seq<Gid>, bound: nat, rails: seq<Gid>, built: seq<bool>, i: nat,
                            history: seq<Gid>, done: Installed, one: Installed)
    requires i < |rails| == |built| && Counted(h, bound, rails[..i], built[..i], history, done)
    requires var held := rails[i] in Held(history, bound);
             && one.created == (if !held && built[i] then 1 else 0) && one.alreadyHeld == (if held then 1 else 0)
             && one.failed == (if held || built[i] then 0 else 1)
    ensures Counted(h, bound, rails[..i + 1], built[..i + 1],
                    if rails[i] in Held(history, bound) || built[i] then history + [rails[i]] else history,
                    Installed(done.created + one.created, done.alreadyHeld + one.alreadyHeld,
                              done.failed + one.failed, done.evicted + one.evicted))
  {
    hide Held, Builds, Failures, InstallAll;
    InstallStep(h, bound, rails, built, i);
    AskedStep(h, bound, rails, built, i);
  }

  lemma NoRails<Gid(!new)>(h: seq<Gid>, bound: nat, rails: seq<Gid>, built: seq<bool>)
    requires |built| == |rails|
    ensures InstallAll(h, bound, rails[..0], built[..0]) == h
    ensures Builds(h, bound, rails[..0], built[..0]) == [] && Failures(h, bound, rails[..0], built[..0]) == 0
  {
  }

  lemma HeldSize<Gid(!new)>(h: seq<Gid>, bound: nat)
    ensures |Held(h, bound)| <= bound
  {
    hide Recency;
  }

  lemma HeldAsEntry<Gid(!new)>(held: seq<Gid>, entries: map<Gid, nat>, clock: nat, g: Gid)
    requires Ordered(held, entries, clock)
    ensures g in entries <==> g in held
  {
  }

  lemma RenewHeld<Gid(!new)>(h: seq<Gid>, g: Gid, bound: nat)
    requires bound >= 1 && g in Held(h, bound)
    ensures Held(h + [g], bound) == Without(Held(h, bound), g) + [g]
    ensures |Held(h + [g], bound)| == |Held(h, bound)|
  {
    hide Recency, Without;
    HeldStep(h, g, bound);
    var r, held := Recency(h), Held(h, bound);
    SplitDistinct(r[..|r| - |held|], held, g);
    WithoutOnce(held, g);
  }

  lemma RenewNew<Gid(!new)>(h: seq<Gid>, g: Gid, bound: nat)
    requires bound >= 1 && g !in Held(h, bound)
    ensures Held(h + [g], bound) == LastOf(Held(h, bound), bound - 1) + [g]
    ensures g !in LastOf(Held(h, bound), bound - 1)
  {
    hide Held;
    HeldStep(h, g, bound);
  }

  lemma InstallStep<Gid(!new)>(h: seq<Gid>, bound: nat, rails: seq<Gid>, built: seq<bool>, i: nat)
    requires |built| == |rails| && i < |rails|
    ensures var before := InstallAll(h, bound, rails[..i], built[..i]);
            InstallAll(h, bound, rails[..i + 1], built[..i + 1]) ==
            if rails[i] in Held(before, bound) || built[i] then before + [rails[i]] else before
  {
    assert rails[..i + 1][..i] == rails[..i] && built[..i + 1][..i] == built[..i];
  }

  /** Taking a name out keeps the stamps in order. */
  lemma SubOrder<Gid(!new)>(s: seq<Gid>, g: Gid, stamps: map<Gid, nat>)
    requires Distinct(s) && (forall x :: x in s ==> x in stamps)
    requires forall i, j :: 0 <= i < j < |s| ==> stamps[s[i]] < stamps[s[j]]
    ensures var r := Without(s, g);
            && (forall x :: x in r ==> x in stamps)
            && forall i, j :: 0 <= i < j < |r| ==> stamps[r[i]] < stamps[r[j]]
  {
    if g in s {
      var k :| 0 <= k < |s| && s[k] == g;
      WithoutAt(s, k);
    } else {
      WithoutAbsent(s, g);
    }
  }
}
