/**
 The disk engine's write barrier: writes handed to a spawner, an atomic count of those in flight, and
 drainers that park on a notification. A notification wakes every waiter created before it.
 */
module Drain {
  import opened Bytes

  /** A write counted but not spawned, running, over, taken off the count, and, for one that took
      the count to zero, owing a notification. */
  datatype Write = Counted | Running | Over | Notifying | Settled

  /** A drainer that has created its waiter, parked on it, or returned having seen `enqueued` writes
      by then. `epoch` is how many notifications had been sent when the waiter was created. */
  datatype Drainer = Created(epoch: nat) | Parked(epoch: nat) | Returned(enqueued: nat)

  datatype Engine = Engine(writes: seq<Write>, inflight: U64, calls: nat, drainers: seq<Drainer>)

  datatype Event =
    | Enqueue
    | Spawn(w: nat)
    | Finish(w: nat)
    | Decrement(w: nat)
    | Notify(w: nat)
    | Enter
    | Load(d: nat)
    | Wake(d: nat)

  predicate IsWrite(e: Engine, w: nat, state: Write) { w < |e.writes| && e.writes[w] == state }

  function SetWrite(e: Engine, w: nat, state: Write): Engine
    requires w < |e.writes|
  {
    e.(writes := e.writes[w := state])
  }

  function SetDrainer(e: Engine, d: nat, state: Drainer): Engine
    requires d < |e.drainers|
  {
    e.(drainers := e.drainers[d := state])
  }

  /** One event; one that is not due changes nothing. Atomic counters wrap. */
  function Step(e: Engine, v: Event): Engine {
    match v
    case Enqueue =>
      e.(writes := e.writes + [Counted], inflight := if e.inflight == U64_MAX then 0 else e.inflight + 1)
    case Spawn(w) => if IsWrite(e, w, Counted) then SetWrite(e, w, Running) else e
    case Finish(w) => if IsWrite(e, w, Running) then SetWrite(e, w, Over) else e
    case Decrement(w) =>
      if IsWrite(e, w, Over) then
        SetWrite(e, w, if e.inflight == 1 then Notifying else Settled)
          .(inflight := if e.inflight == 0 then U64_MAX else e.inflight - 1)
      else e
    case Notify(w) => if IsWrite(e, w, Notifying) then SetWrite(e, w, Settled).(calls := e.calls + 1) else e
    case Enter => e.(drainers := e.drainers + [Created(e.calls)])
    case Load(d) =>
      if d < |e.drainers| && e.drainers[d].Created? then
        SetDrainer(e, d, if e.inflight == 0 then Returned(|e.writes|) else Parked(e.drainers[d].epoch))
      else e
    case Wake(d) =>
      if d < |e.drainers| && e.drainers[d].Parked? && e.drainers[d].epoch < e.calls then
        SetDrainer(e, d, Created(e.calls))
      else e
  }

  function Run(events: seq<Event>): Engine {
    if events == [] then Engine([], 0, 0, [])
    else Step(Run(events[..|events| - 1]), events[|events| - 1])
  }

  /** Counted and not yet taken off the count. */
  predicate Outstanding(w: Write) { w.Counted? || w.Running? || w.Over? }

  function CountOutstanding(ws: seq<Write>): nat {
    if ws == [] then 0
    else CountOutstanding(ws[..|ws| - 1]) + if Outstanding(ws[|ws| - 1]) then 1 else 0
  }

  /** The count reached zero and the notification is still to come. */
  ghost predicate NotifyPending(e: Engine) {
    exists w :: 0 <= w < |e.writes| && e.writes[w].Notifying?
  }

  ghost predicate DrainerOk(e: Engine, d: Drainer) {
    match d
    case Created(epoch) => epoch <= e.calls
    case Parked(epoch) => epoch <= e.calls && (epoch == e.calls ==> e.inflight > 0 || NotifyPending(e))
    case Returned(enqueued) =>
      enqueued <= |e.writes| && (forall w :: 0 <= w < enqueued ==> !Outstanding(e.writes[w]))
  }

  ghost predicate Inv(e: Engine) {
    && e.inflight == CountOutstanding(e.writes)
    && (forall d :: 0 <= d < |e.drainers| ==> DrainerOk(e, e.drainers[d]))
  }

  lemma {:induction false} CountOfUpdate(ws: seq<Write>, w: nat, state: Write)
    requires w < |ws|
    ensures CountOutstanding(ws[w := state]) ==
            CountOutstanding(ws) - (if Outstanding(ws[w]) then 1 else 0) + (if Outstanding(state) then 1 else 0)
  {
    var n := |ws| - 1;
    if w == n {
      assert ws[w := state][..n] == ws[..n];
    } else {
      CountOfUpdate(ws[..n], w, state);
      assert ws[w := state][..n] == ws[..n][w := state];
    }
  }

  lemma {:induction false} CountBounded(ws: seq<Write>)
    ensures CountOutstanding(ws) <= |ws|
    ensures CountOutstanding(ws) == 0 <==> forall w :: 0 <= w < |ws| ==> !Outstanding(ws[w])
  {
    if ws != [] {
      CountBounded(ws[..|ws| - 1]);
      assert forall w :: 0 <= w < |ws| - 1 ==> ws[..|ws| - 1][w] == ws[w];
    }
  }

  /** A write moving on keeps every drainer's claim, as long as a vanished count owes a notification. */
  lemma WriteMoves(e: Engine, w: nat, state: Write, inflight: U64, calls: nat)
    requires Inv(e) && w < |e.writes|
    requires inflight ==
             e.inflight - (if Outstanding(e.writes[w]) then 1 else 0) + (if Outstanding(state) then 1 else 0)
    requires Outstanding(state) ==> Outstanding(e.writes[w])
    requires calls > e.calls || (calls == e.calls && !e.writes[w].Notifying?)
    requires e.inflight > 0 && inflight == 0 ==> state.Notifying?
    ensures Inv(e.(writes := e.writes[w := state], inflight := inflight, calls := calls))
  {
    hide CountOutstanding, Outstanding;
    CountOfUpdate(e.writes, w, state);
    var f := e.(writes := e.writes[w := state], inflight := inflight, calls := calls);
    forall d | 0 <= d < |f.drainers|
      ensures DrainerOk(f, f.drainers[d])
    {
      assert DrainerOk(e, e.drainers[d]);
      if e.drainers[d].Parked? && e.drainers[d].epoch == f.calls && f.inflight == 0 {
        if e.inflight > 0 {
          assert f.writes[w].Notifying?;
        } else {
          var x :| 0 <= x < |e.writes| && e.writes[x].Notifying?;
          assert f.writes[x].Notifying?;
        }
      }
    }
  }

  lemma DrainerMoves(e: Engine, d: nat, state: Drainer)
    requires Inv(e) && d < |e.drainers| && DrainerOk(e, state)
    ensures Inv(SetDrainer(e, d, state))
  {
    var f := SetDrainer(e, d, state);
    forall i | 0 <= i < |f.drainers|
      ensures DrainerOk(f, f.drainers[i])
    {
      assert DrainerOk(e, if i == d then state else e.drainers[i]);
      assert NotifyPending(e) ==> NotifyPending(f);
    }
  }

  lemma EnqueueKeeps(e: Engine)
    requires Inv(e) && |e.writes| < U64_MAX
    ensures Inv(Step(e, Enqueue))
  {
    var f := Step(e, Enqueue);
    assert f.writes[..|e.writes|] == e.writes;
    CountBounded(e.writes);
    forall d | 0 <= d < |f.drainers|
      ensures DrainerOk(f, f.drainers[d])
    {
      assert DrainerOk(e, e.drainers[d]);
    }
  }

  lemma EnterKeeps(e: Engine)
    requires Inv(e)
    ensures Inv(Step(e, Enter))
  {
    var f := Step(e, Enter);
    forall d | 0 <= d < |f.drainers|
      ensures DrainerOk(f, f.drainers[d])
    {
      assert d < |e.drainers| ==> DrainerOk(e, e.drainers[d]);
      assert NotifyPending(e) ==> NotifyPending(f);
    }
  }

  lemma StepKeeps(e: Engine, v: Event)
    requires Inv(e) && |Step(e, v).writes| <= U64_MAX
    ensures Inv(Step(e, v))
  {
    CountBounded(e.writes);
    hide Inv, CountOutstanding;
    match v
    case Enqueue => EnqueueKeeps(e);
    case Enter => EnterKeeps(e);
    case Spawn(w) =>
      if IsWrite(e, w, Counted) {
        WriteMoves(e, w, Running, e.inflight, e.calls);
      }
    case Finish(w) =>
      if IsWrite(e, w, Running) {
        WriteMoves(e, w, Over, e.inflight, e.calls);
      }
    case Decrement(w) =>
      if IsWrite(e, w, Over) {
        assert e.inflight > 0 by { OutstandingCounts(e, w); }
        WriteMoves(e, w, if e.inflight == 1 then Notifying else Settled, e.inflight - 1, e.calls);
      }
    case Notify(w) =>
      if IsWrite(e, w, Notifying) {
        WriteMoves(e, w, Settled, e.inflight, e.calls + 1);
      }
    case Load(d) =>
      if d < |e.drainers| && e.drainers[d].Created? {
        LoadOk(e, d);
        DrainerMoves(e, d, Step(e, v).drainers[d]);
      }
    case Wake(d) =>
      if d < |e.drainers| && e.drainers[d].Parked? {
        DrainerMoves(e, d, Created(e.calls));
      }
  }

  lemma OutstandingCounts(e: Engine, w: nat)
    requires Inv(e) && w < |e.writes| && Outstanding(e.writes[w])
    ensures e.inflight > 0
  {
    CountBounded(e.writes);
  }

  lemma LoadOk(e: Engine, d: nat)
    requires Inv(e) && d < |e.drainers| && e.drainers[d].Created?
    ensures DrainerOk(e, if e.inflight == 0 then Returned(|e.writes|) else Parked(e.drainers[d].epoch))
  {
    CountBounded(e.writes);
    assert DrainerOk(e, e.drainers[d]);
  }

  lemma WritesStay(e: Engine, v: Event)
    ensures |e.writes| <= |Step(e, v).writes|
  {
  }

  lemma {:induction false} RunKeeps(events: seq<Event>)
    requires |Run(events).writes| <= U64_MAX
    ensures Inv(Run(events))
  {
    hide Step;
    if events != [] {
      var before, last := Run(events[..|events| - 1]), events[|events| - 1];
      WritesStay(before, last);
      RunKeeps(events[..|events| - 1]);
      StepKeeps(before, last);
    }
  }

  /**
   In every interleaving: the count is exactly the writes enqueued and not yet taken off it; a drain
   that has returned saw every write enqueued by then finish; no drainer is parked unsignalled with
   nothing in flight and no notification to come; and a drainer parked since the last notification
   stays parked.
   */
  lemma DrainIsABarrier(events: seq<Event>)
    requires |Run(events).writes| <= U64_MAX
    ensures var e := Run(events);
            && e.inflight == CountOutstanding(e.writes)
            && (forall d :: 0 <= d < |e.drainers| && e.drainers[d].Returned? ==>
                  && e.drainers[d].enqueued <= |e.writes|
                  && forall w :: 0 <= w < e.drainers[d].enqueued ==> !Outstanding(e.writes[w]))
            && !(exists d :: 0 <= d < |e.drainers| && e.drainers[d] == Parked(e.calls)
                             && e.inflight == 0 && !NotifyPending(e))
            && (forall d: nat :: d < |e.drainers| && e.drainers[d] == Parked(e.calls) ==> Step(e, Wake(d)) == e)
  {
    hide Run;
    RunKeeps(events);
    var e := Run(events);
    assert forall d :: 0 <= d < |e.drainers| ==> DrainerOk(e, e.drainers[d]);
  }

  /** Once every write has settled, each drainer returns after its next few steps. */
  lemma SettledDrains(events: seq<Event>, d: nat)
    requires |Run(events).writes| <= U64_MAX
    requires var e := Run(events);
             d < |e.drainers| && forall w :: 0 <= w < |e.writes| ==> e.writes[w].Settled?
    ensures var e := Run(events);
            Step(Step(e, Wake(d)), Load(d)).drainers[d].Returned?
  {
    hide Run;
    RunKeeps(events);
    var e := Run(events);
    CountBounded(e.writes);
    assert DrainerOk(e, e.drainers[d]);
  }

  // ----- every write can settle

  function Settling(w: nat): seq<Event> { [Spawn(w), Finish(w), Decrement(w), Notify(w)] }

  lemma SettleOne(e: Engine, w: nat)
    requires w < |e.writes|
    ensures var f := Step(Step(Step(Step(e, Spawn(w)), Finish(w)), Decrement(w)), Notify(w));
            f.writes == e.writes[w := Settled] && f.drainers == e.drainers
  {
  }

  lemma RunFour(es: seq<Event>, a: Event, b: Event, c: Event, d: Event)
    ensures Run(es + [a, b, c, d]) == Step(Step(Step(Step(Run(es), a), b), c), d)
  {
    hide Run, Step;
    RunNext(es, a);
    RunNext(es + [a], b);
    RunNext(es + [a] + [b], c);
    RunNext(es + [a] + [b] + [c], d);
    assert es + [a, b, c, d] == es + [a] + [b] + [c] + [d];
  }

  lemma RunNext(es: seq<Event>, e: Event)
    ensures Run(es + [e]) == Step(Run(es), e)
  {
    hide Step;
    assert (es + [e])[..|es|] == es;
  }

  lemma {:induction false} SettleThrough(events: seq<Event>, k: nat) returns (more: seq<Event>)
    requires k <= |Run(events).writes|
    ensures var e, f := Run(events), Run(events + more);
            && |f.writes| == |e.writes| && f.drainers == e.drainers
            && forall w :: 0 <= w < k ==> f.writes[w].Settled?
  {
    if k == 0 {
      more := [];
      assert events + more == events;
    } else {
      hide Run, Step;
      more := SettleThrough(events, k - 1);
      SettleOne(Run(events + more), k - 1);
      RunFour(events + more, Spawn(k - 1), Finish(k - 1), Decrement(k - 1), Notify(k - 1));
      assert events + (more + Settling(k - 1)) == events + more + Settling(k - 1);
      more := more + Settling(k - 1);
    }
  }

  /** From every interleaving there are steps that settle every write enqueued by then; after them
      the count is zero, every drainer returns within two steps of its own, and one that enters then
      returns at once, having seen every write. */
  lemma EveryRunCanSettle(events: seq<Event>) returns (more: seq<Event>)
    requires |Run(events).writes| <= U64_MAX
    ensures var e, f := Run(events), Run(events + more);
            && |f.writes| == |e.writes| && (forall w :: 0 <= w < |f.writes| ==> f.writes[w].Settled?)
            && f.inflight == 0 && f.drainers == e.drainers
            && (forall d: nat :: d < |f.drainers| ==> Step(Step(f, Wake(d)), Load(d)).drainers[d].Returned?)
            && var n := |f.drainers|;
               Step(Step(f, Enter), Load(n)).drainers == f.drainers + [Returned(|f.writes|)]
  {
    hide Run, CountOutstanding;
    more := SettleThrough(events, |Run(events).writes|);
    RunKeeps(events + more);
    CountBounded(Run(events + more).writes);
    forall d: nat | d < |Run(events + more).drainers|
      ensures Step(Step(Run(events + more), Wake(d)), Load(d)).drainers[d].Returned?
    {
      SettledDrains(events + more, d);
    }
  }
}
