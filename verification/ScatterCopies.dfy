/**
 Where the copies of a scattered PUT are: exactly which events of a run make a copy visible or held
 back, and exactly which ones take it away; and that every upload under way can still fail cleanly.
 */
module ScatterCopies {
  import opened Common
  import opened Scatter

  lemma NothingYet(plan: Plan)
    ensures Run(plan, []).cached == {} && Run(plan, []).staged == {}
  {
  }

  lemma RunLast(plan: Plan, es: seq<Event>)
    requires es != []
    ensures Run(plan, es) == Step(plan, Run(plan, es[..|es| - 1]), es[|es| - 1])
  {
    hide Step;
  }

  // ----- visible copies

  /** The event makes the copy visible: its own node commits it, or a reader fills its cache with it. */
  predicate Arrives(plan: Plan, w: World, e: Event, c: Copy) {
    || (e == CommitOne(c.node, true) && w.phase.Committing? && c.node in w.phase.left && c in w.staged)
    || (e == CommitLocal && w.phase.Committing? && w.phase.left == {} && c.node == plan.local && c in w.staged)
    || (e == ReaderFills(c) && w.durable)
  }

  /** The event takes a visible copy away: eviction, or an invalidation that gets there. */
  predicate Leaves(w: World, e: Event, c: Copy) {
    e == Evict(c) || (e == InvalidateOne(c, true) && w.phase.Invalidating? && c in w.phase.todo)
  }

  lemma StepVisible(plan: Plan, w: World, e: Event, c: Copy)
    requires |w.tasks| == |plan.windows|
    ensures c in Step(plan, w, e).cached <==> Arrives(plan, w, e, c) || (c in w.cached && !Leaves(w, e, c))
  {
    hide AllFinished, StaleCopies, OfferedHomes, Owners;
  }

  /** Event `k` made the copy visible, and none since took it away. */
  predicate VisibleSince(plan: Plan, es: seq<Event>, c: Copy, k: nat)
    requires k < |es|
  {
    && Arrives(plan, Run(plan, es[..k]), es[k], c)
    && (forall j :: k < j < |es| ==> !Leaves(Run(plan, es[..j]), es[j], c))
  }

  lemma VisibleSinceLast(plan: Plan, es: seq<Event>, c: Copy)
    requires es != []
    ensures var n := |es| - 1;
            VisibleSince(plan, es, c, n) <==> Arrives(plan, Run(plan, es[..n]), es[n], c)
  {
    hide Run, Arrives;
  }

  lemma VisibleSinceBefore(plan: Plan, es: seq<Event>, c: Copy, k: nat)
    requires k < |es| - 1
    ensures var n := |es| - 1;
            VisibleSince(plan, es, c, k) <==>
              VisibleSince(plan, es[..n], c, k) && !Leaves(Run(plan, es[..n]), es[n], c)
  {
    hide Run, Arrives, Leaves;
    var n := |es| - 1;
    assert forall j :: 0 <= j < n ==> es[..n][..j] == es[..j] && es[..n][j] == es[j];
    if VisibleSince(plan, es[..n], c, k) && !Leaves(Run(plan, es[..n]), es[n], c) {
      forall j | k < j < |es|
        ensures !Leaves(Run(plan, es[..j]), es[j], c)
      {
        assert j < n ==> !Leaves(Run(plan, es[..n][..j]), es[..n][j], c);
      }
    }
    if VisibleSince(plan, es, c, k) {
      forall j | k < j < n
        ensures !Leaves(Run(plan, es[..n][..j]), es[..n][j], c)
      {
        assert !Leaves(Run(plan, es[..j]), es[j], c);
      }
    }
  }

  /** In every run a copy is visible exactly when its node committed it while it was held back there,
      or a reader fetched it from the completed object, and it was neither evicted nor told to go since. */
  lemma {:induction false} VisibleIff(plan: Plan, es: seq<Event>, c: Copy)
    ensures c in Run(plan, es).cached <==> exists k: nat :: k < |es| && VisibleSince(plan, es, c, k)
  {
    hide *;
    if es == [] {
      NothingYet(plan);
    } else {
      var n := |es| - 1;
      RunLast(plan, es);
      VisibleSinceLast(plan, es, c);
      VisibleIff(plan, es[..n], c);
      StepVisible(plan, Run(plan, es[..n]), es[n], c);
      if c in Run(plan, es).cached && !VisibleSince(plan, es, c, n) {
        var k: nat :| k < n && VisibleSince(plan, es[..n], c, k);
        VisibleSinceBefore(plan, es, c, k);
      }
      if k: nat :| k < n && VisibleSince(plan, es, c, k) {
        VisibleSinceBefore(plan, es, c, k);
      }
    }
  }

  // ----- copies held back

  /** The event stages the copy: this node for its own upload, or a peer for an offer it was sent. */
  predicate Stages(plan: Plan, w: World, e: Event, c: Copy) {
    || (e == StageLocal(c.window) && c.node == plan.local && TaskIs(w, c.window, Local))
    || (e == PeerStages(c.window) && c.window < |plan.windows| && plan.windows[c.window].homes != []
        && plan.windows[c.window].homes[0] == c.node && Offer(c.node, c.window) in w.sent)
  }

  /** The event ends the holding back: a commit or a discard that gets to the copy's node, the upload
      given up or its task failing here, or time. */
  predicate Unstages(plan: Plan, w: World, e: Event, c: Copy) {
    || e == Unstage(c)
    || (e == CommitOne(c.node, true) && w.phase.Committing? && c.node in w.phase.left)
    || (e == DiscardOne(c.node, true) && w.phase.Unwinding? && c.node in w.phase.left)
    || (c.node == plan.local
        && (|| (e == CommitLocal && w.phase.Committing? && w.phase.left == {})
            || (e == GiveUp && w.phase.Uploading?)
            || (e.CompleteFails? && w.phase.Completing?)
            || (e == TaskFails(c.window) && (TaskIs(w, c.window, Ready) || TaskIs(w, c.window, Local)))))
  }

  lemma CoordinatorHeldBack(plan: Plan, w: World, e: Event, c: Copy)
    requires |w.tasks| == |plan.windows|
    requires !e.PeerStages? && !e.StageLocal? && !e.Unstage? && !e.TaskFails?
    ensures c in CoordinatorStep(plan, w, e).staged <==> c in w.staged && !Unstages(plan, w, e, c)
  {
    hide AllFinished, StaleCopies, OfferedHomes, Owners;
  }

  lemma TaskHeldBack(plan: Plan, w: World, e: Event, c: Copy)
    requires |w.tasks| == |plan.windows|
    requires e.Dispatch? || e.SendOffer? || e.KeepLocal? || e.OfferTaken? || e.OfferFails? || e.StageLocal?
             || e.UploadedHere? || e.TaskFails?
    ensures c in TaskStep(plan, w, e).staged <==> Stages(plan, w, e, c) || (c in w.staged && !Unstages(plan, w, e, c))
  {
  }

  lemma OutsideHeldBack(plan: Plan, w: World, e: Event, c: Copy)
    requires |w.tasks| == |plan.windows|
    requires e.PeerStages? || e.Unstage? || e.Evict? || e.ReaderFills?
    ensures c in OutsideStep(plan, w, e).staged
            <==> Stages(plan, w, e, c) || (c in w.staged && !Unstages(plan, w, e, c))
  {
  }

  lemma StepHeldBack(plan: Plan, w: World, e: Event, c: Copy)
    requires |w.tasks| == |plan.windows|
    ensures c in Step(plan, w, e).staged <==> Stages(plan, w, e, c) || (c in w.staged && !Unstages(plan, w, e, c))
  {
    assert e.PeerStages? || e.StageLocal? || !Stages(plan, w, e, c);
    hide CoordinatorStep, TaskStep, OutsideStep, Stages, Unstages;
    if e.PeerStages? || e.Unstage? || e.Evict? || e.ReaderFills? {
      OutsideHeldBack(plan, w, e, c);
    } else if e.Dispatch? || e.SendOffer? || e.KeepLocal? || e.OfferTaken? || e.OfferFails? || e.StageLocal?
              || e.UploadedHere? || e.TaskFails?
    {
      TaskHeldBack(plan, w, e, c);
    } else {
      CoordinatorHeldBack(plan, w, e, c);
    }
  }

  /** Event `k` staged the copy, and none since ended that. */
  predicate HeldBackSince(plan: Plan, es: seq<Event>, c: Copy, k: nat)
    requires k < |es|
  {
    && Stages(plan, Run(plan, es[..k]), es[k], c)
    && (forall j :: k < j < |es| ==> !Unstages(plan, Run(plan, es[..j]), es[j], c))
  }

  lemma HeldBackSinceLast(plan: Plan, es: seq<Event>, c: Copy)
    requires es != []
    ensures var n := |es| - 1;
            HeldBackSince(plan, es, c, n) <==> Stages(plan, Run(plan, es[..n]), es[n], c)
  {
    hide Run, Stages;
  }

  lemma HeldBackSinceBefore(plan: Plan, es: seq<Event>, c: Copy, k: nat)
    requires k < |es| - 1
    ensures var n := |es| - 1;
            HeldBackSince(plan, es, c, k) <==>
              HeldBackSince(plan, es[..n], c, k) && !Unstages(plan, Run(plan, es[..n]), es[n], c)
  {
    hide Run, Stages, Unstages;
    var n := |es| - 1;
    assert forall j :: 0 <= j < n ==> es[..n][..j] == es[..j] && es[..n][j] == es[j];
    if HeldBackSince(plan, es[..n], c, k) && !Unstages(plan, Run(plan, es[..n]), es[n], c) {
      forall j | k < j < |es|
        ensures !Unstages(plan, Run(plan, es[..j]), es[j], c)
      {
        assert j < n ==> !Unstages(plan, Run(plan, es[..n][..j]), es[..n][j], c);
      }
    }
    if HeldBackSince(plan, es, c, k) {
      forall j | k < j < n
        ensures !Unstages(plan, Run(plan, es[..n][..j]), es[..n][j], c)
      {
        assert !Unstages(plan, Run(plan, es[..j]), es[j], c);
      }
    }
  }

  /** In every run a copy is held back exactly when it was staged, by this node for its own upload or
      by a peer for an offer sent to it, and neither commit, discard, failure nor time ended that. */
  lemma {:induction false} HeldBackIff(plan: Plan, es: seq<Event>, c: Copy)
    ensures c in Run(plan, es).staged <==> exists k: nat :: k < |es| && HeldBackSince(plan, es, c, k)
  {
    hide *;
    if es == [] {
      NothingYet(plan);
    } else {
      var n := |es| - 1;
      RunLast(plan, es);
      HeldBackSinceLast(plan, es, c);
      HeldBackIff(plan, es[..n], c);
      StepHeldBack(plan, Run(plan, es[..n]), es[n], c);
      if c in Run(plan, es).staged && !HeldBackSince(plan, es, c, n) {
        var k: nat :| k < n && HeldBackSince(plan, es[..n], c, k);
        HeldBackSinceBefore(plan, es, c, k);
      }
      if k: nat :| k < n && HeldBackSince(plan, es, c, k) {
        HeldBackSinceBefore(plan, es, c, k);
      }
    }
  }

  // ----- ways on

  lemma RunNext(plan: Plan, es: seq<Event>, e: Event)
    ensures Run(plan, es + [e]) == Step(plan, Run(plan, es), e)
  {
    hide Step;
    assert (es + [e])[..|es|] == es;
  }

  /** A window whose offer fails can still be uploaded from here, and is then held back here. */
  lemma RefusedOfferIsKept(plan: Plan, es: seq<Event>, i: nat)
    requires TaskIs(Run(plan, es), i, Offered)
    ensures var w := Run(plan, es + [OfferFails(i)] + [StageLocal(i)] + [UploadedHere(i)]);
            w.tasks == Run(plan, es).tasks[i := Finished(None)] && Copy(plan.local, i) in w.staged
  {
    hide Run;
    RunNext(plan, es, OfferFails(i));
    RunNext(plan, es + [OfferFails(i)], StageLocal(i));
    RunNext(plan, es + [OfferFails(i)] + [StageLocal(i)], UploadedHere(i));
  }

  lemma {:induction false} AllDiscarded(plan: Plan, es: seq<Event>, left: set<NodeId>) returns (more: seq<Event>)
    requires Run(plan, es).phase == Unwinding(left)
    ensures Run(plan, more).phase == Failed && Run(plan, more).durable == Run(plan, es).durable
    decreases |left|
  {
    hide Run;
    if left == {} {
      more := es + [Unwound];
      RunNext(plan, es, Unwound);
    } else {
      var n :| n in left;
      RunNext(plan, es, DiscardOne(n, true));
      more := AllDiscarded(plan, es + [DiscardOne(n, true)], left - {n});
    }
  }

  /** Every upload that has not completed can still be given up, or have its completion fail with or
      without effect at the backend, and be unwound to the end. */
  lemma EveryUploadCanFail(plan: Plan, es: seq<Event>, applied: bool) returns (more: seq<Event>)
    requires Run(plan, es).phase.Uploading? || Run(plan, es).phase.Completing?
    ensures var w, v := Run(plan, es), Run(plan, more);
            v.phase == Failed && v.durable == (w.durable || (w.phase.Completing? && applied))
  {
    hide Run;
    var e := if Run(plan, es).phase.Uploading? then GiveUp else CompleteFails(applied);
    RunNext(plan, es, e);
    more := AllDiscarded(plan, es + [e], OfferedHomes(plan));
  }
}
