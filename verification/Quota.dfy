/**
 The node-wide ceiling on pinned client memory: any number of requests reserving through one
 atomic counter, mapping their segment, and giving the reservation back when they end.
 */
module Quota {
  import opened Common
  import opened Bytes

  datatype Rejection = Malformed | OverTargetCeiling | OverNodeCeiling | Unusable

  /** Where one request stands. `Trying` has read `current` and is about to exchange it. */
  datatype Phase =
    | Trying(offset: U64, len: U64, current: U64)
    | Reserved(offset: U64, len: U64)
    | Mapped(offset: U64, len: U64, segmentLen: U64)
    | Unwinding(len: U64, reason: Rejection)
    | Rejected(reason: Rejection)
    | Closed

  datatype Node = Node(max: U64, maxPerTarget: U64, inUse: U64, requests: seq<Phase>)

  /**
   `Open` starts a request and reads the counter. `Exchange` is one round of the reservation loop;
   it may fail although nothing changed. `Map` is the mapping, which finds a segment of some
   length or fails. `Drop` releases a reservation, of a target that is done or one being refused.
   */
  datatype Event =
    | Open(offset: U64, len: U64)
    | Exchange(r: nat, spurious: bool)
    | Map(r: nat, segment: Option<U64>)
    | Drop(r: nat)

  /** The bytes a request has reserved. */
  function Held(p: Phase): U64 {
    match p
    case Reserved(_, len) => len
    case Mapped(_, len, _) => len
    case Unwinding(len, _) => len
    case _ => 0
  }

  function Total(s: seq<Phase>): nat {
    if s == [] then 0 else Total(s[..|s| - 1]) + Held(s[|s| - 1])
  }

  /** What the reservation loop does with a counter value it has just seen. */
  function Observe(n: Node, offset: U64, len: U64, current: U64): Phase {
    if current + len > U64_MAX || current + len > n.max then Rejected(OverNodeCeiling)
    else Trying(offset, len, current)
  }

  function Opened(n: Node, offset: U64, len: U64): Phase {
    if offset + len > U64_MAX then Rejected(Malformed)
    else if len > n.maxPerTarget then Rejected(OverTargetCeiling)
    else Observe(n, offset, len, n.inUse)
  }

  /** Put request `r` in phase `p` and the counter at `inUse`. */
  function Move(n: Node, r: nat, p: Phase, inUse: U64): Node
    requires r < |n.requests|
  {
    n.(requests := n.requests[r := p], inUse := inUse)
  }

  /** `fetch_sub`, which wraps. */
  function WrappingSub(a: U64, b: U64): U64 {
    if b <= a then a - b else a - b + 0x1_0000_0000_0000_0000
  }

  /** One event; one that is not due changes nothing. */
  function Step(n: Node, e: Event): Node {
    match e
    case Open(offset, len) => n.(requests := n.requests + [Opened(n, offset, len)])
    case Exchange(r, spurious) =>
      if r < |n.requests| && n.requests[r].Trying? then
        var p := n.requests[r];
        if p.current == n.inUse && !spurious && p.current + p.len <= U64_MAX
        then Move(n, r, Reserved(p.offset, p.len), p.current + p.len)
        else Move(n, r, Observe(n, p.offset, p.len, n.inUse), n.inUse)
      else n
    case Map(r, segment) =>
      if r < |n.requests| && n.requests[r].Reserved? then
        var p := n.requests[r];
        if segment.Some? && p.offset + p.len <= segment.value
        then Move(n, r, Mapped(p.offset, p.len, segment.value), n.inUse)
        else Move(n, r, Unwinding(p.len, Unusable), n.inUse)
      else n
    case Drop(r) =>
      if r < |n.requests| && n.requests[r].Mapped? then
        Move(n, r, Closed, WrappingSub(n.inUse, n.requests[r].len))
      else if r < |n.requests| && n.requests[r].Unwinding? then
        Move(n, r, Rejected(n.requests[r].reason), WrappingSub(n.inUse, n.requests[r].len))
      else n
  }

  function Run(n: Node, es: seq<Event>): Node {
    if es == [] then n else Step(Run(n, es[..|es| - 1]), es[|es| - 1])
  }

  function NewNode(max: U64, maxPerTarget: U64): Node { Node(max, maxPerTarget, 0, []) }

  predicate PhaseOk(n: Node, p: Phase) {
    && Held(p) <= n.maxPerTarget
    && (p.Trying? ==> p.len <= n.maxPerTarget && p.current + p.len <= n.max)
    && (p.Mapped? ==> p.offset + p.len <= p.segmentLen)
  }

  /** The counter is the sum of the live reservations and within the ceiling. */
  predicate Inv(n: Node) {
    && n.inUse == Total(n.requests) <= n.max
    && (forall r :: 0 <= r < |n.requests| ==> PhaseOk(n, n.requests[r]))
  }

  lemma {:induction false} TotalOfUpdate(s: seq<Phase>, r: nat, p: Phase)
    requires r < |s|
    ensures Total(s[r := p]) == Total(s) - Held(s[r]) + Held(p)
  {
    var n := |s| - 1;
    if r == n {
      assert s[r := p][..n] == s[..n];
    } else {
      TotalOfUpdate(s[..n], r, p);
      assert s[r := p][..n] == s[..n][r := p];
    }
  }

  lemma {:induction false} HeldBelowTotal(s: seq<Phase>, r: nat)
    requires r < |s|
    ensures Held(s[r]) <= Total(s)
  {
    if r < |s| - 1 {
      HeldBelowTotal(s[..|s| - 1], r);
    }
  }

  lemma MoveKeeps(n: Node, r: nat, p: Phase, inUse: U64)
    requires Inv(n) && r < |n.requests|
    requires inUse == n.inUse - Held(n.requests[r]) + Held(p) <= n.max
    requires PhaseOk(n, p)
    ensures Inv(Move(n, r, p, inUse))
  {
    hide Held, Total;
    TotalOfUpdate(n.requests, r, p);
    var m := Move(n, r, p, inUse);
    forall i | 0 <= i < |m.requests|
      ensures PhaseOk(m, m.requests[i])
    {
      assert PhaseOk(n, if i == r then p else n.requests[i]);
    }
  }

  lemma OpenKeeps(n: Node, p: Phase)
    requires Inv(n) && PhaseOk(n, p) && Held(p) == 0
    ensures Inv(n.(requests := n.requests + [p]))
  {
    var all := n.requests + [p];
    assert all[..|all| - 1] == n.requests;
  }

  lemma StepKeeps(n: Node, e: Event)
    requires Inv(n)
    ensures Inv(Step(n, e))
    ensures Step(n, e).max == n.max && Step(n, e).maxPerTarget == n.maxPerTarget
  {
    var inUse := n.inUse;
    assert inUse <= n.max;
    assert forall i :: 0 <= i < |n.requests| ==> PhaseOk(n, n.requests[i]);
    hide Inv, Total;
    match e
    case Open(offset, len) =>
      OpenKeeps(n, Opened(n, offset, len));
    case _ =>
      var m := Step(n, e);
      if e.r < |n.requests| && m != n {
        assert PhaseOk(n, n.requests[e.r]);
        assert Held(n.requests[e.r]) <= inUse by { HeldBelowCounter(n, e.r); }
        MoveKeeps(n, e.r, m.requests[e.r], m.inUse);
      }
  }

  lemma HeldBelowCounter(n: Node, r: nat)
    requires Inv(n) && r < |n.requests|
    ensures Held(n.requests[r]) <= n.inUse
  {
    HeldBelowTotal(n.requests, r);
  }

  /** Whatever requests come, interleave, fail and end: the counter is the sum of the live
      reservations, never above the ceiling, and every mapped window lies in its segment. */
  lemma {:induction false} EveryRunBounded(max: U64, maxPerTarget: U64, es: seq<Event>)
    ensures var n := Run(NewNode(max, maxPerTarget), es);
            && Inv(n) && n.max == max && n.maxPerTarget == maxPerTarget
            && n.inUse == Total(n.requests) <= max
            && (forall r :: 0 <= r < |n.requests| ==> Held(n.requests[r]) <= maxPerTarget)
            && (forall r :: 0 <= r < |n.requests| && n.requests[r].Mapped? ==>
                  n.requests[r].offset + n.requests[r].len <= n.requests[r].segmentLen)
  {
    assert forall r :: 0 <= r < |Run(NewNode(max, maxPerTarget), es).requests| ==>
             var n := Run(NewNode(max, maxPerTarget), es); Inv(n) ==> PhaseOk(n, n.requests[r]);
    if es != [] {
      EveryRunBounded(max, maxPerTarget, es[..|es| - 1]);
      StepKeeps(Run(NewNode(max, maxPerTarget), es[..|es| - 1]), es[|es| - 1]);
    }
  }

  predicate Ended(p: Phase) { p.Rejected? || p.Closed? }

  lemma {:induction false} NothingHeld(s: seq<Phase>)
    requires forall r :: 0 <= r < |s| ==> Ended(s[r])
    ensures Total(s) == 0
  {
    if s != [] {
      NothingHeld(s[..|s| - 1]);
    }
  }

  /** Once every request has ended, served or refused, nothing stays reserved. */
  lemma AllEndedReleases(max: U64, maxPerTarget: U64, es: seq<Event>)
    requires var n := Run(NewNode(max, maxPerTarget), es);
             forall r :: 0 <= r < |n.requests| ==> Ended(n.requests[r])
    ensures Run(NewNode(max, maxPerTarget), es).inUse == 0
  {
    EveryRunBounded(max, maxPerTarget, es);
    NothingHeld(Run(NewNode(max, maxPerTarget), es).requests);
  }

  /** At the instant it looks, a request is refused exactly for one of the three stated reasons,
      taken in order and measured against what live requests hold; a refusal reserves nothing. */
  lemma RefusedExactly(max: U64, maxPerTarget: U64, es: seq<Event>, offset: U64, len: U64)
    ensures var before := Run(NewNode(max, maxPerTarget), es);
            var after := Step(before, Open(offset, len));
            && (after.requests[|before.requests|].Rejected? <==>
                offset + len > U64_MAX || len > maxPerTarget || Total(before.requests) + len > max)
            && after.requests == before.requests +
                 [if offset + len > U64_MAX then Rejected(Malformed)
                  else if len > maxPerTarget then Rejected(OverTargetCeiling)
                  else if Total(before.requests) + len > max then Rejected(OverNodeCeiling)
                  else Trying(offset, len, Total(before.requests))]
            && after.inUse == before.inUse
  {
    EveryRunBounded(max, maxPerTarget, es);
  }

  /** A reservation round that loses the race to nobody and does not fail on its own takes the request
      in, and the ceiling still holds; one that sees the counter changed is judged against the new value. */
  lemma ExchangeDecides(max: U64, maxPerTarget: U64, es: seq<Event>, r: nat, spurious: bool)
    requires var n := Run(NewNode(max, maxPerTarget), es);
             r < |n.requests| && n.requests[r].Trying?
    ensures var n := Run(NewNode(max, maxPerTarget), es);
            var p := n.requests[r];
            var after := Step(n, Exchange(r, spurious));
            && (after.requests[r].Reserved? <==> p.current == Total(n.requests) && !spurious)
            && (after.requests[r].Reserved? ==> after.inUse == Total(n.requests) + p.len <= max)
            && (after.requests[r].Rejected? <==> Total(n.requests) + p.len > max)
            && (!after.requests[r].Reserved? ==> after.inUse == n.inUse)
  {
    EveryRunBounded(max, maxPerTarget, es);
    var n := Run(NewNode(max, maxPerTarget), es);
    assert PhaseOk(n, n.requests[r]);
  }

  /** A reserved window is mapped exactly when a segment is found and the window lies in it; otherwise
      the request ends unusable. Either way exactly its reservation comes off the counter. */
  lemma MapDecides(max: U64, maxPerTarget: U64, es: seq<Event>, r: nat, segment: Option<U64>)
    requires var n := Run(NewNode(max, maxPerTarget), es);
             r < |n.requests| && n.requests[r].Reserved?
    ensures var n := Run(NewNode(max, maxPerTarget), es);
            var p := n.requests[r];
            var mapped := Step(n, Map(r, segment));
            var over := Step(mapped, Drop(r));
            && (mapped.requests[r].Mapped? <==> segment.Some? && p.offset + p.len <= segment.value)
            && (mapped.requests[r].Mapped? ==> mapped.requests[r] == Mapped(p.offset, p.len, segment.value))
            && mapped.inUse == n.inUse
            && over.requests == n.requests[r := if mapped.requests[r].Mapped? then Closed else Rejected(Unusable)]
            && over.inUse == n.inUse - p.len
  {
    hide Run, Total, Inv;
    EveryRunBounded(max, maxPerTarget, es);
    HeldBelowCounter(Run(NewNode(max, maxPerTarget), es), r);
  }

  // ----- every request can end

  /** Two rounds of the reservation, a segment that is not found, and a release. */
  function Ending(r: nat): seq<Event> { [Exchange(r, false), Exchange(r, false), Map(r, None), Drop(r)] }

  lemma EndOne(n: Node, r: nat)
    requires Inv(n) && r < |n.requests|
    ensures var m := Step(Step(Step(Step(n, Exchange(r, false)), Exchange(r, false)), Map(r, None)), Drop(r));
            && |m.requests| == |n.requests| && Ended(m.requests[r])
            && forall i :: 0 <= i < |n.requests| && i != r ==> m.requests[i] == n.requests[i]
  {
    assert PhaseOk(n, n.requests[r]);
  }

  lemma RunFour(n: Node, es: seq<Event>, a: Event, b: Event, c: Event, d: Event)
    ensures Run(n, es + [a, b, c, d]) == Step(Step(Step(Step(Run(n, es), a), b), c), d)
  {
    hide Run, Step;
    RunNext(n, es, a);
    RunNext(n, es + [a], b);
    RunNext(n, es + [a] + [b], c);
    RunNext(n, es + [a] + [b] + [c], d);
    assert es + [a, b, c, d] == es + [a] + [b] + [c] + [d];
  }

  lemma RunNext(n: Node, es: seq<Event>, e: Event)
    ensures Run(n, es + [e]) == Step(Run(n, es), e)
  {
    hide Step;
    assert (es + [e])[..|es|] == es;
  }

  lemma {:induction false} EndThrough(max: U64, maxPerTarget: U64, es: seq<Event>, k: nat) returns (more: seq<Event>)
    requires k <= |Run(NewNode(max, maxPerTarget), es).requests|
    ensures var n, m := Run(NewNode(max, maxPerTarget), es), Run(NewNode(max, maxPerTarget), es + more);
            && |m.requests| == |n.requests| && forall r :: 0 <= r < k ==> Ended(m.requests[r])
  {
    if k == 0 {
      more := [];
      assert es + more == es;
    } else {
      hide Run, Ended, Ending;
      var before := EndThrough(max, maxPerTarget, es, k - 1);
      EndNext(max, maxPerTarget, es + before, k - 1);
      more := before + Ending(k - 1);
      assert es + more == es + before + Ending(k - 1);
    }
  }

  lemma EndNext(max: U64, maxPerTarget: U64, es: seq<Event>, r: nat)
    requires r < |Run(NewNode(max, maxPerTarget), es).requests|
    ensures var n, m := Run(NewNode(max, maxPerTarget), es), Run(NewNode(max, maxPerTarget), es + Ending(r));
            && |m.requests| == |n.requests| && Ended(m.requests[r])
            && forall i :: 0 <= i < |n.requests| && i != r ==> m.requests[i] == n.requests[i]
  {
    hide Run, Step, Ended, Inv;
    var n := NewNode(max, maxPerTarget);
    EveryRunBounded(max, maxPerTarget, es);
    EndOne(Run(n, es), r);
    RunFour(n, es, Exchange(r, false), Exchange(r, false), Map(r, None), Drop(r));
  }

  /** From every run there are steps that end every request, and then nothing stays reserved. */
  lemma EveryRunCanEnd(max: U64, maxPerTarget: U64, es: seq<Event>) returns (more: seq<Event>)
    ensures var n, m := Run(NewNode(max, maxPerTarget), es), Run(NewNode(max, maxPerTarget), es + more);
            && |m.requests| == |n.requests| && (forall r :: 0 <= r < |m.requests| ==> Ended(m.requests[r]))
            && m.inUse == 0
  {
    hide Run, Ended;
    more := EndThrough(max, maxPerTarget, es, |Run(NewNode(max, maxPerTarget), es).requests|);
    AllEndedReleases(max, maxPerTarget, es + more);
  }
}
