/**
 A scattered PUT as a protocol between the coordinator, its peers and the backend: windows are
 offered and staged, the upload is completed, stale copies are invalidated, and only then does
 anything become visible; a failing upload is unwound instead.

 Node names stand for nodes; window `i` is the window of part `i + 1`.
 */
module Scatter {
  import opened Common

  type NodeId = nat

  /** A window's homes, best first. */
  datatype PlannedWindow = PlannedWindow(homes: seq<NodeId>)

  datatype Plan = Plan(local: NodeId, windows: seq<PlannedWindow>)

  /** A window's upload task; `Finished` names the owner that took it, or no one for this node. */
  datatype Task = Waiting | Ready | Offered | Local | Finished(owner: Option<NodeId>) | Broken

  datatype Copy = Copy(node: NodeId, window: nat)

  /** What the coordinator sent, in order. */
  datatype Sent =
    | Offer(node: NodeId, window: nat)
    | Invalidate(node: NodeId, window: nat)
    | Commit(node: NodeId)
    | Discard(node: NodeId)

  datatype Phase =
    | Uploading
    | Completing
    | Invalidating(todo: set<Copy>)
    | Committing(left: set<NodeId>)
    | Published
    | Unwinding(left: set<NodeId>)
    | Failed

  /** `durable` says that the backend has completed the upload. `staged` and `cached` are the copies
      of this upload's windows, held back and visible. */
  datatype World = World(
    phase: Phase,
    tasks: seq<Task>,
    durable: bool,
    staged: set<Copy>,
    cached: set<Copy>,
    sent: seq<Sent>)

  /**
   What can happen next. The first group is the coordinator, the second a window's own task, which
   may go on after the coordinator has given up, and the third everything else: a peer acting on an
   offer it was sent, staged bytes running out of time, eviction, and readers filling their caches
   from the backend. A request may be lost before or after it took effect.
   */
  datatype Event =
    | GiveUp
    | StartComplete
    | CompleteOk
    | CompleteFails(applied: bool)
    | InvalidateOne(copy: Copy, delivered: bool)
    | InvalidatedAll
    | CommitOne(node: NodeId, delivered: bool)
    | CommitLocal
    | DiscardOne(node: NodeId, delivered: bool)
    | Unwound
    | Dispatch(w: nat)
    | SendOffer(w: nat)
    | KeepLocal(w: nat)
    | OfferTaken(w: nat)
    | OfferFails(w: nat)
    | StageLocal(w: nat)
    | UploadedHere(w: nat)
    | TaskFails(w: nat)
    | PeerStages(w: nat)
    | Unstage(copy: Copy)
    | Evict(copy: Copy)
    | ReaderFills(copy: Copy)

  predicate TaskIs(w: World, i: nat, t: Task) { i < |w.tasks| && w.tasks[i] == t }

  function SetTask(w: World, i: nat, t: Task): World
    requires i < |w.tasks|
  {
    w.(tasks := w.tasks[i := t])
  }

  function At(copies: set<Copy>, n: NodeId): set<Copy> { set c | c in copies && c.node == n }

  function Elsewhere(copies: set<Copy>, n: NodeId): set<Copy> { set c | c in copies && c.node != n }

  /** The peer a window would be offered to. */
  predicate Peer(plan: Plan, i: nat, n: NodeId) {
    i < |plan.windows| && plan.windows[i].homes != [] && plan.windows[i].homes[0] == n && n != plan.local
  }

  /** Every peer the plan could have offered a window to. */
  function OfferedHomes(plan: Plan): set<NodeId> {
    set i | 0 <= i < |plan.windows| && plan.windows[i].homes != [] && plan.windows[i].homes[0] != plan.local
      :: plan.windows[i].homes[0]
  }

  predicate AllFinished(tasks: seq<Task>) {
    forall i :: 0 <= i < |tasks| ==> tasks[i].Finished?
  }

  /** The node that holds a finished window's fresh bytes. */
  function Holder(plan: Plan, t: Task): NodeId {
    if t.Finished? && t.owner.Some? then t.owner.value else plan.local
  }

  /** The planned homes that heard nothing of this write. */
  function StaleCopies(plan: Plan, tasks: seq<Task>): set<Copy>
    requires |tasks| == |plan.windows|
  {
    set i, j | 0 <= i < |plan.windows| && 0 <= j < |plan.windows[i].homes|
               && plan.windows[i].homes[j] != Holder(plan, tasks[i])
      :: Copy(plan.windows[i].homes[j], i)
  }

  function Owners(tasks: seq<Task>): set<NodeId> {
    set i | 0 <= i < |tasks| && tasks[i].Finished? && tasks[i].owner.Some? :: tasks[i].owner.value
  }

  /** The upload is being given up: this node's staged windows go, and every peer of the plan is to
      be told, whatever it answered. */
  function Unwind(plan: Plan, w: World): World {
    w.(phase := Unwinding(OfferedHomes(plan)), staged := Elsewhere(w.staged, plan.local))
  }

  /** Node `n` makes what it has staged visible. */
  function Publish(w: World, n: NodeId): World {
    w.(cached := w.cached + At(w.staged, n), staged := Elsewhere(w.staged, n))
  }

  function CoordinatorStep(plan: Plan, w: World, e: Event): World
    requires |w.tasks| == |plan.windows|
  {
    match e
    case GiveUp => if w.phase.Uploading? then Unwind(plan, w) else w
    case StartComplete => if w.phase.Uploading? && AllFinished(w.tasks) then w.(phase := Completing) else w
    case CompleteOk =>
      if w.phase.Completing? then w.(phase := Invalidating(StaleCopies(plan, w.tasks)), durable := true) else w
    case CompleteFails(applied) =>
      if w.phase.Completing? then Unwind(plan, w.(durable := w.durable || applied)) else w
    case InvalidateOne(c, delivered) =>
      if w.phase.Invalidating? && c in w.phase.todo then
        w.(phase := Invalidating(w.phase.todo - {c}), sent := w.sent + [Invalidate(c.node, c.window)],
           cached := if delivered then w.cached - {c} else w.cached)
      else w
    case InvalidatedAll =>
      if w.phase.Invalidating? && w.phase.todo == {} then w.(phase := Committing(Owners(w.tasks))) else w
    case CommitOne(n, delivered) =>
      if w.phase.Committing? && n in w.phase.left then
        var v := w.(phase := Committing(w.phase.left - {n}), sent := w.sent + [Commit(n)]);
        if delivered then Publish(v, n) else v
      else w
    case CommitLocal =>
      if w.phase.Committing? && w.phase.left == {} then
        Publish(w.(phase := Published, sent := w.sent + [Commit(plan.local)]), plan.local)
      else w
    case DiscardOne(n, delivered) =>
      if w.phase.Unwinding? && n in w.phase.left then
        w.(phase := Unwinding(w.phase.left - {n}), sent := w.sent + [Discard(n)],
           staged := if delivered then Elsewhere(w.staged, n) else w.staged)
      else w
    case Unwound => if w.phase.Unwinding? && w.phase.left == {} then w.(phase := Failed) else w
    case _ => w
  }

  function TaskStep(plan: Plan, w: World, e: Event): World
    requires |w.tasks| == |plan.windows|
  {
    match e
    case Dispatch(i) => if TaskIs(w, i, Waiting) && w.phase.Uploading? then SetTask(w, i, Ready) else w
    case SendOffer(i) =>
      if TaskIs(w, i, Ready) && plan.windows[i].homes != [] && plan.windows[i].homes[0] != plan.local then
        SetTask(w, i, Offered).(sent := w.sent + [Offer(plan.windows[i].homes[0], i)])
      else w
    case KeepLocal(i) => if TaskIs(w, i, Ready) then SetTask(w, i, Local) else w
    case OfferTaken(i) =>
      if TaskIs(w, i, Offered) && plan.windows[i].homes != [] then
        SetTask(w, i, Finished(Some(plan.windows[i].homes[0])))
      else w
    case OfferFails(i) => if TaskIs(w, i, Offered) then SetTask(w, i, Local) else w
    case StageLocal(i) => if TaskIs(w, i, Local) then w.(staged := w.staged + {Copy(plan.local, i)}) else w
    case UploadedHere(i) => if TaskIs(w, i, Local) then SetTask(w, i, Finished(None)) else w
    case TaskFails(i) =>
      if TaskIs(w, i, Ready) || TaskIs(w, i, Local) then
        SetTask(w, i, Broken).(staged := w.staged - {Copy(plan.local, i)})
      else w
    case _ => w
  }

  function OutsideStep(plan: Plan, w: World, e: Event): World
    requires |w.tasks| == |plan.windows|
  {
    match e
    case PeerStages(i) =>
      if i < |plan.windows| && plan.windows[i].homes != [] && Offer(plan.windows[i].homes[0], i) in w.sent then
        w.(staged := w.staged + {Copy(plan.windows[i].homes[0], i)})
      else w
    case Unstage(c) => w.(staged := w.staged - {c})
    case Evict(c) => w.(cached := w.cached - {c})
    case ReaderFills(c) => if w.durable then w.(cached := w.cached + {c}) else w
    case _ => w
  }

  /** One event; one that is not due changes nothing. */
  function Step(plan: Plan, w: World, e: Event): (v: World)
    requires |w.tasks| == |plan.windows|
    ensures |v.tasks| == |plan.windows|
  {
    if e.PeerStages? || e.Unstage? || e.Evict? || e.ReaderFills? then OutsideStep(plan, w, e)
    else if e.Dispatch? || e.SendOffer? || e.KeepLocal? || e.OfferTaken? || e.OfferFails? || e.StageLocal?
            || e.UploadedHere? || e.TaskFails? then TaskStep(plan, w, e)
    else CoordinatorStep(plan, w, e)
  }

  function Begin(plan: Plan): World {
    World(Uploading, seq(|plan.windows|, (i: nat) => Waiting), false, {}, {}, [])
  }

  function Run(plan: Plan, es: seq<Event>): (w: World)
    ensures |w.tasks| == |plan.windows|
  {
    if es == [] then Begin(plan) else Step(plan, Run(plan, es[..|es| - 1]), es[|es| - 1])
  }

  // ----- what every run keeps

  /** Every copy is told to forget in `log`. */
  predicate Invalidated(copies: set<Copy>, log: seq<Sent>) {
    forall c :: c in copies ==> Invalidate(c.node, c.window) in log
  }

  predicate Discarded(nodes: set<NodeId>, log: seq<Sent>) {
    forall n :: n in nodes ==> Discard(n) in log
  }

  predicate NoCommit(log: seq<Sent>) {
    forall k :: 0 <= k < |log| ==> !log[k].Commit?
  }

  /** Every commit comes after every stale copy was told. */
  predicate CommitsLast(stale: set<Copy>, log: seq<Sent>) {
    forall k :: 0 <= k < |log| && log[k].Commit? ==> Invalidated(stale, log[..k])
  }

  predicate Committed(nodes: set<NodeId>, log: seq<Sent>) {
    forall n :: n in nodes ==> Commit(n) in log
  }

  predicate OffersPlanned(plan: Plan, log: seq<Sent>) {
    forall k :: 0 <= k < |log| && log[k].Offer? ==> Peer(plan, log[k].window, log[k].node)
  }

  predicate PhaseOk(plan: Plan, w: World)
    requires |w.tasks| == |plan.windows|
  {
    match w.phase
    case Uploading => NoCommit(w.sent)
    case Completing => NoCommit(w.sent) && AllFinished(w.tasks)
    case Invalidating(todo) =>
      && NoCommit(w.sent) && AllFinished(w.tasks) && w.durable
      && Invalidated(StaleCopies(plan, w.tasks) - todo, w.sent)
    case Committing(left) =>
      && AllFinished(w.tasks) && w.durable && Invalidated(StaleCopies(plan, w.tasks), w.sent)
      && Committed(Owners(w.tasks) - left, w.sent)
    case Published =>
      && AllFinished(w.tasks) && w.durable && Invalidated(StaleCopies(plan, w.tasks), w.sent)
      && Committed(Owners(w.tasks) + {plan.local}, w.sent)
    case Unwinding(left) => NoCommit(w.sent) && Discarded(OfferedHomes(plan) - left, w.sent)
    case Failed => NoCommit(w.sent) && Discarded(OfferedHomes(plan), w.sent)
  }

  predicate Inv(plan: Plan, w: World)
    ensures Inv(plan, w) ==> |w.tasks| == |plan.windows|
  {
    && |w.tasks| == |plan.windows|
    && (w.cached != {} ==> w.durable)
    && OffersPlanned(plan, w.sent)
    && PhaseOk(plan, w)
    && CommitsLast(StaleCopies(plan, w.tasks), w.sent)
  }

  lemma NoCommitLast(stale: set<Copy>, log: seq<Sent>)
    requires NoCommit(log)
    ensures CommitsLast(stale, log)
  {
  }

  lemma SentMore(stale: set<Copy>, log: seq<Sent>, s: Sent)
    requires CommitsLast(stale, log)
    requires s.Commit? ==> Invalidated(stale, log)
    ensures CommitsLast(stale, log + [s])
  {
    var more := log + [s];
    forall k | 0 <= k < |more| && more[k].Commit?
      ensures Invalidated(stale, more[..k])
    {
      assert more[..k] == log[..k];
      assert k == |log| ==> log[..k] == log;
    }
  }

  lemma StillSent(copies: set<Copy>, nodes: set<NodeId>, log: seq<Sent>, s: Sent)
    ensures Invalidated(copies, log) ==> Invalidated(copies, log + [s])
    ensures Discarded(nodes, log) ==> Discarded(nodes, log + [s])
    ensures Committed(nodes, log) ==> Committed(nodes, log + [s])
  {
  }

  /** A phase that has sent no commit says nothing about the tasks beyond their number. */
  lemma TasksMove(plan: Plan, w: World, i: nat, t: Task)
    requires Inv(plan, w) && i < |w.tasks| && !w.tasks[i].Finished?
    ensures Inv(plan, SetTask(w, i, t))
  {
    hide StaleCopies, OfferedHomes, CommitsLast;
    assert !AllFinished(w.tasks);
    NoCommitLast(StaleCopies(plan, w.tasks[i := t]), w.sent);
  }

  lemma SentKeeps(plan: Plan, w: World, s: Sent)
    requires Inv(plan, w) && !s.Commit?
    requires s.Offer? ==> Peer(plan, s.window, s.node)
    ensures Inv(plan, w.(sent := w.sent + [s]))
  {
    hide StaleCopies, OfferedHomes, Owners, AllFinished, CommitsLast, Invalidated, Discarded, Committed, Peer;
    var v := w.(sent := w.sent + [s]);
    SentMore(StaleCopies(plan, w.tasks), w.sent, s);
    StillSent(StaleCopies(plan, w.tasks), OfferedHomes(plan), w.sent, s);
    if w.phase.Invalidating? {
      StillSent(StaleCopies(plan, w.tasks) - w.phase.todo, {}, w.sent, s);
    }
    if w.phase.Unwinding? {
      StillSent({}, OfferedHomes(plan) - w.phase.left, w.sent, s);
    }
    if w.phase.Committing? {
      StillSent({}, Owners(w.tasks) - w.phase.left, w.sent, s);
    }
    StillSent({}, Owners(w.tasks) + {plan.local}, w.sent, s);
  }

  lemma TaskStepKeeps(plan: Plan, w: World, e: Event)
    requires Inv(plan, w)
    ensures Inv(plan, TaskStep(plan, w, e))
  {
    var v := TaskStep(plan, w, e);
    hide Inv, StaleCopies, OfferedHomes;
    match e
    case Dispatch(i) => if TaskIs(w, i, Waiting) { TasksMove(plan, w, i, Ready); }
    case SendOffer(i) =>
      if TaskIs(w, i, Ready) && plan.windows[i].homes != [] && plan.windows[i].homes[0] != plan.local {
        TasksMove(plan, w, i, Offered);
        SentKeeps(plan, SetTask(w, i, Offered), Offer(plan.windows[i].homes[0], i));
      }
    case KeepLocal(i) => if TaskIs(w, i, Ready) { TasksMove(plan, w, i, Local); }
    case OfferTaken(i) =>
      if TaskIs(w, i, Offered) && plan.windows[i].homes != [] {
        TasksMove(plan, w, i, Finished(Some(plan.windows[i].homes[0])));
      }
    case OfferFails(i) => if TaskIs(w, i, Offered) { TasksMove(plan, w, i, Local); }
    case StageLocal(i) => CopiesMove(plan, w, v);
    case UploadedHere(i) => if TaskIs(w, i, Local) { TasksMove(plan, w, i, Finished(None)); }
    case TaskFails(i) =>
      if TaskIs(w, i, Ready) || TaskIs(w, i, Local) {
        TasksMove(plan, w, i, Broken);
        CopiesMove(plan, SetTask(w, i, Broken), v);
      }
    case _ =>
  }

  /** Copies come and go; visible ones only once the upload is durable. */
  lemma CopiesMove(plan: Plan, w: World, v: World)
    requires Inv(plan, w)
    requires v == w.(staged := v.staged, cached := v.cached)
    requires v.cached != {} ==> w.durable
    ensures Inv(plan, v)
  {
    hide StaleCopies, OfferedHomes, CommitsLast;
  }

  lemma VisibleIsDurable(plan: Plan, w: World)
    requires Inv(plan, w)
    ensures w.cached != {} ==> w.durable
  {
  }

  lemma OutsideStepKeeps(plan: Plan, w: World, e: Event)
    requires Inv(plan, w)
    ensures Inv(plan, OutsideStep(plan, w, e))
  {
    hide Inv;
    VisibleIsDurable(plan, w);
    CopiesMove(plan, w, OutsideStep(plan, w, e));
  }

  lemma UnwindKeeps(plan: Plan, w: World)
    requires Inv(plan, w) && NoCommit(w.sent)
    ensures Inv(plan, Unwind(plan, w))
  {
    hide StaleCopies, OfferedHomes, CommitsLast;
    assert OfferedHomes(plan) - OfferedHomes(plan) == {};
  }

  lemma InvalidateKeeps(plan: Plan, w: World, c: Copy, delivered: bool)
    requires Inv(plan, w) && w.phase.Invalidating? && c in w.phase.todo
    ensures Inv(plan, CoordinatorStep(plan, w, InvalidateOne(c, delivered)))
  {
    var s := Invalidate(c.node, c.window);
    SentKeeps(plan, w, s);
    hide StaleCopies, CommitsLast;
    var stale := StaleCopies(plan, w.tasks);
    assert Invalidated(stale - w.phase.todo, w.sent + [s]);
    assert Invalidated(stale - (w.phase.todo - {c}), w.sent + [s]);
  }

  lemma CommitKeeps(plan: Plan, w: World, n: NodeId, next: Phase)
    requires Inv(plan, w) && w.phase.Committing?
    requires next == Committing(w.phase.left - {n}) || (next == Published && n == plan.local && w.phase.left == {})
    ensures Inv(plan, w.(phase := next, sent := w.sent + [Commit(n)]))
  {
    hide StaleCopies, CommitsLast, Owners;
    var more := w.sent + [Commit(n)];
    SentMore(StaleCopies(plan, w.tasks), w.sent, Commit(n));
    StillSent(StaleCopies(plan, w.tasks), Owners(w.tasks) - w.phase.left, w.sent, Commit(n));
    assert Committed((Owners(w.tasks) - w.phase.left) + {n}, more);
    assert forall m :: m in Owners(w.tasks) - (w.phase.left - {n}) ==> m in (Owners(w.tasks) - w.phase.left) + {n};
  }

  lemma DiscardKeeps(plan: Plan, w: World, n: NodeId)
    requires Inv(plan, w) && w.phase.Unwinding? && n in w.phase.left
    ensures Inv(plan, w.(phase := Unwinding(w.phase.left - {n}), sent := w.sent + [Discard(n)]))
  {
    SentKeeps(plan, w, Discard(n));
    hide StaleCopies, OfferedHomes, CommitsLast;
    assert Discarded(OfferedHomes(plan) - w.phase.left, w.sent + [Discard(n)]);
  }

  /** What a phase says about the rest. */
  lemma PhaseFacts(plan: Plan, w: World)
    requires Inv(plan, w)
    ensures w.phase.Uploading? || w.phase.Completing? ==> NoCommit(w.sent)
    ensures w.phase.Committing? || w.phase.Published? ==> w.durable
  {
    hide StaleCopies, OfferedHomes;
  }

  lemma PhaseMoves(plan: Plan, w: World, e: Event)
    requires Inv(plan, w) && (e.StartComplete? || e.CompleteOk? || e.InvalidatedAll? || e.Unwound?)
    ensures Inv(plan, CoordinatorStep(plan, w, e))
  {
    hide StaleCopies, OfferedHomes, CommitsLast, Owners;
    var stale := StaleCopies(plan, w.tasks);
    assert stale - stale == {};
    assert stale - {} == stale && OfferedHomes(plan) - {} == OfferedHomes(plan);
    assert Owners(w.tasks) - Owners(w.tasks) == {};
  }

  lemma DurableKeeps(plan: Plan, w: World, applied: bool)
    requires Inv(plan, w)
    ensures Inv(plan, w.(durable := w.durable || applied))
  {
    hide StaleCopies, OfferedHomes, CommitsLast;
  }

  lemma CoordinatorStepKeeps(plan: Plan, w: World, e: Event)
    requires Inv(plan, w)
    ensures Inv(plan, CoordinatorStep(plan, w, e))
  {
    hide Inv, StaleCopies, OfferedHomes, Owners, AllFinished;
    PhaseFacts(plan, w);
    match e
    case GiveUp => if w.phase.Uploading? { UnwindKeeps(plan, w); }
    case StartComplete => PhaseMoves(plan, w, e);
    case CompleteOk => PhaseMoves(plan, w, e);
    case CompleteFails(applied) =>
      if w.phase.Completing? {
        DurableKeeps(plan, w, applied);
        UnwindKeeps(plan, w.(durable := w.durable || applied));
      }
    case InvalidateOne(c, delivered) =>
      if w.phase.Invalidating? && c in w.phase.todo {
        InvalidateKeeps(plan, w, c, delivered);
      }
    case InvalidatedAll => PhaseMoves(plan, w, e);
    case CommitOne(n, delivered) =>
      if w.phase.Committing? && n in w.phase.left {
        var v := w.(phase := Committing(w.phase.left - {n}), sent := w.sent + [Commit(n)]);
        CommitKeeps(plan, w, n, v.phase);
        CopiesMove(plan, v, Publish(v, n));
      }
    case CommitLocal =>
      if w.phase.Committing? && w.phase.left == {} {
        var v := w.(phase := Published, sent := w.sent + [Commit(plan.local)]);
        CommitKeeps(plan, w, plan.local, Published);
        CopiesMove(plan, v, Publish(v, plan.local));
      }
    case DiscardOne(n, delivered) =>
      if w.phase.Unwinding? && n in w.phase.left {
        var v := w.(phase := Unwinding(w.phase.left - {n}), sent := w.sent + [Discard(n)]);
        DiscardKeeps(plan, w, n);
        VisibleIsDurable(plan, v);
        CopiesMove(plan, v, CoordinatorStep(plan, w, e));
      }
    case Unwound => PhaseMoves(plan, w, e);
    case _ =>
  }

  lemma BeginInv(plan: Plan)
    ensures Inv(plan, Begin(plan))
  {
    hide StaleCopies;
  }

  lemma {:induction false} RunKeeps(plan: Plan, es: seq<Event>)
    ensures Inv(plan, Run(plan, es))
  {
    hide Inv, TaskStep, OutsideStep, CoordinatorStep;
    if es == [] {
      BeginInv(plan);
    } else {
      var w, e := Run(plan, es[..|es| - 1]), es[|es| - 1];
      RunKeeps(plan, es[..|es| - 1]);
      TaskStepKeeps(plan, w, e);
      OutsideStepKeeps(plan, w, e);
      CoordinatorStepKeeps(plan, w, e);
    }
  }

  /**
   In every run of a scattered PUT: nothing of this upload is visible anywhere before the backend
   completed it; a commit is sent only after every planned home of every window, except the one
   node that holds its fresh bytes, was told to forget the window; a run that ends well commits at
   every owner and here; and a failing run sends no commit and tells every peer it ever offered a
   window to discard.
   */
  lemma EveryRunSafe(plan: Plan, es: seq<Event>)
    ensures var w := Run(plan, es);
            && (w.cached != {} ==> w.durable)
            && (forall k, i, j ::
                  0 <= k < |w.sent| && w.sent[k].Commit? && 0 <= i < |plan.windows| && 0 <= j < |plan.windows[i].homes|
                  && plan.windows[i].homes[j] != Holder(plan, w.tasks[i])
                  ==> Invalidate(plan.windows[i].homes[j], i) in w.sent[..k])
            && (w.phase.Published? ==>
                  && Commit(plan.local) in w.sent
                  && forall i :: 0 <= i < |w.tasks| ==>
                       w.tasks[i].Finished? && (w.tasks[i].owner.Some? ==> Commit(w.tasks[i].owner.value) in w.sent))
            && (w.phase.Failed? ==>
                  && NoCommit(w.sent)
                  && forall k :: 0 <= k < |w.sent| && w.sent[k].Offer? ==> Discard(w.sent[k].node) in w.sent)
  {
    RunKeeps(plan, es);
    hide Run;
    var w := Run(plan, es);
    var stale := StaleCopies(plan, w.tasks);
    forall k, i, j |
      0 <= k < |w.sent| && w.sent[k].Commit? && 0 <= i < |plan.windows| && 0 <= j < |plan.windows[i].homes|
      && plan.windows[i].homes[j] != Holder(plan, w.tasks[i])
      ensures Invalidate(plan.windows[i].homes[j], i) in w.sent[..k]
    {
      assert Copy(plan.windows[i].homes[j], i) in stale;
      assert Invalidated(stale, w.sent[..k]);
    }
    if w.phase.Published? {
      assert forall i :: 0 <= i < |w.tasks| && w.tasks[i].owner.Some? ==> w.tasks[i].owner.value in Owners(w.tasks);
    }
    if w.phase.Failed? {
      forall k | 0 <= k < |w.sent| && w.sent[k].Offer?
        ensures Discard(w.sent[k].node) in w.sent
      {
        var i := w.sent[k].window;
        assert Peer(plan, i, w.sent[k].node);
        assert plan.windows[i].homes[0] in OfferedHomes(plan);
      }
    }
  }

  // ----- what the tasks' ends mean

  /** The last event that moved the task of window `i`. */
  function LastMove(plan: Plan, es: seq<Event>, i: nat): Option<Event>
    requires i < |plan.windows|
  {
    if es == [] then None
    else
      var before := es[..|es| - 1];
      if Run(plan, es).tasks[i] != Run(plan, before).tasks[i] then Some(es[|es| - 1]) else LastMove(plan, before, i)
  }

  /** A task's state tells its last move, and what was sent on the way. */
  predicate Told(plan: Plan, t: Task, last: Option<Event>, sent: seq<Sent>, i: nat)
    requires i < |plan.windows|
  {
    var homes := plan.windows[i].homes;
    match t
    case Waiting => last == None
    case Ready => last == Some(Dispatch(i))
    case Offered => last == Some(SendOffer(i)) && homes != [] && Peer(plan, i, homes[0]) && Offer(homes[0], i) in sent
    case Local => last == Some(KeepLocal(i)) || last == Some(OfferFails(i))
    case Finished(Some(n)) => last == Some(OfferTaken(i)) && Peer(plan, i, n) && Offer(n, i) in sent
    case Finished(None) => last == Some(UploadedHere(i))
    case Broken => last == Some(TaskFails(i))
  }

  lemma SentStays(plan: Plan, w: World, e: Event, s: Sent)
    requires |w.tasks| == |plan.windows| && s in w.sent
    ensures s in Step(plan, w, e).sent
  {
    hide AllFinished, StaleCopies, OfferedHomes, Owners, At, Elsewhere;
  }

  lemma StepTells(plan: Plan, w: World, e: Event, i: nat, last: Option<Event>)
    requires |w.tasks| == |plan.windows| && i < |plan.windows|
    requires Told(plan, w.tasks[i], last, w.sent, i)
    ensures var v := Step(plan, w, e);
            Told(plan, v.tasks[i], if v.tasks[i] != w.tasks[i] then Some(e) else last, v.sent, i)
  {
    hide AllFinished, StaleCopies, OfferedHomes, Owners, At, Elsewhere;
    var v := Step(plan, w, e);
    forall n | Offer(n, i) in w.sent
      ensures Offer(n, i) in v.sent
    {
      SentStays(plan, w, e, Offer(n, i));
    }
    if v.tasks[i] != w.tasks[i] && e.SendOffer? {
      assert Peer(plan, i, plan.windows[i].homes[0]) && Offer(plan.windows[i].homes[0], i) in v.sent;
    }
  }

  lemma {:induction false} RunTells(plan: Plan, es: seq<Event>, i: nat)
    requires i < |plan.windows|
    ensures Told(plan, Run(plan, es).tasks[i], LastMove(plan, es, i), Run(plan, es).sent, i)
  {
    hide Step, Told;
    if es == [] {
      BeginTells(plan, i);
    } else {
      RunTells(plan, es[..|es| - 1], i);
      StepTells(plan, Run(plan, es[..|es| - 1]), es[|es| - 1], i, LastMove(plan, es[..|es| - 1], i));
    }
  }

  lemma BeginTells(plan: Plan, i: nat)
    requires i < |plan.windows|
    ensures Told(plan, Begin(plan).tasks[i], None, Begin(plan).sent, i)
  {
  }

  /**
   In every run a window is booked to a peer exactly when the last thing its task did was to have
   that peer take the offer it was sent, and to this node exactly when it was uploaded here.
   */
  lemma BookedAsTaken(plan: Plan, es: seq<Event>, i: nat, n: NodeId)
    requires i < |plan.windows|
    ensures var w := Run(plan, es);
            && (w.tasks[i] == Finished(Some(n)) <==>
                  LastMove(plan, es, i) == Some(OfferTaken(i)) && Offer(n, i) in w.sent)
            && (w.tasks[i] == Finished(None) <==> LastMove(plan, es, i) == Some(UploadedHere(i)))
            && (Offer(n, i) in w.sent ==> Peer(plan, i, n))
  {
    hide Run, LastMove, Inv, Holder, StaleCopies;
    RunTells(plan, es, i);
    RunKeeps(plan, es);
    OffersToPeers(plan, Run(plan, es), i, n);
  }

  lemma OffersToPeers(plan: Plan, w: World, i: nat, n: NodeId)
    requires Inv(plan, w)
    ensures Offer(n, i) in w.sent ==> Peer(plan, i, n)
  {
    hide PhaseOk, CommitsLast, Peer, StaleCopies;
    if Offer(n, i) in w.sent {
      var k :| 0 <= k < |w.sent| && w.sent[k] == Offer(n, i);
      assert Peer(plan, w.sent[k].window, w.sent[k].node);
    }
  }

  // ----- what a published upload leaves

  /** The copy that a finished task stands for. */
  function Kept(plan: Plan, t: Task, i: nat): Copy { Copy(Holder(plan, t), i) }

  /** Nothing is lost on the way: no staged or visible copy goes, every commit arrives, and a task ends
      only once its window is staged where it ends. */
  predicate Careful(plan: Plan, w: World, e: Event)
    requires |w.tasks| == |plan.windows|
  {
    match e
    case Unstage(_) => false
    case Evict(_) => false
    case CommitOne(_, delivered) => delivered
    case OfferTaken(i) =>
      TaskIs(w, i, Offered) && plan.windows[i].homes != [] ==> Copy(plan.windows[i].homes[0], i) in w.staged
    case UploadedHere(i) => TaskIs(w, i, Local) ==> Copy(plan.local, i) in w.staged
    case _ => true
  }

  predicate CarefulRun(plan: Plan, es: seq<Event>) {
    forall k :: 0 <= k < |es| ==> Careful(plan, Run(plan, es[..k]), es[k])
  }

  /** Where a finished window's copy is by now. */
  predicate Placed(plan: Plan, w: World, i: nat)
    requires |w.tasks| == |plan.windows| && i < |w.tasks|
  {
    var t := w.tasks[i];
    t.Finished? ==>
      var c := Kept(plan, t, i);
      match w.phase
      case Unwinding(_) => true
      case Failed => true
      case Published => c in w.cached
      case Committing(left) =>
        if c.node in left || c.node == plan.local then c in w.staged else c in w.cached
      case _ => c in w.staged
  }

  lemma TaskStepPlaces(plan: Plan, w: World, e: Event, i: nat)
    requires |w.tasks| == |plan.windows| && i < |w.tasks| && Placed(plan, w, i) && Careful(plan, w, e)
    requires w.phase.Committing? || w.phase.Published? ==> AllFinished(w.tasks)
    ensures Placed(plan, TaskStep(plan, w, e), i)
  {
    hide StaleCopies, OfferedHomes, Owners;
    assert w.phase.Committing? || w.phase.Published? ==> w.tasks[i].Finished?;
  }

  lemma CoordinatorStepPlaces(plan: Plan, w: World, e: Event, i: nat)
    requires |w.tasks| == |plan.windows| && i < |w.tasks| && Placed(plan, w, i) && Careful(plan, w, e)
    requires w.phase.Committing? ==> w.phase.left <= Owners(w.tasks)
    requires plan.local !in Owners(w.tasks)
    ensures Placed(plan, CoordinatorStep(plan, w, e), i)
  {
    hide StaleCopies, OfferedHomes, AllFinished;
    if w.tasks[i].Finished? && w.tasks[i].owner.Some? {
      assert w.tasks[i].owner.value in Owners(w.tasks);
    }
  }

  lemma OutsideStepPlaces(plan: Plan, w: World, e: Event, i: nat)
    requires |w.tasks| == |plan.windows| && i < |w.tasks| && Placed(plan, w, i) && Careful(plan, w, e)
    ensures Placed(plan, OutsideStep(plan, w, e), i)
  {
  }

  /** What remains to be committed is still owed to owners. */
  predicate OwedToOwners(w: World) { w.phase.Committing? ==> w.phase.left <= Owners(w.tasks) }

  lemma StepOwes(plan: Plan, w: World, e: Event)
    requires |w.tasks| == |plan.windows| && OwedToOwners(w)
    requires w.phase.Committing? ==> AllFinished(w.tasks)
    ensures OwedToOwners(Step(plan, w, e))
  {
    hide StaleCopies, OfferedHomes, Owners, At, Elsewhere;
  }

  lemma OwnersArePeers(plan: Plan, es: seq<Event>)
    ensures plan.local !in Owners(Run(plan, es).tasks)
  {
    var w := Run(plan, es);
    hide Run;
    forall i | 0 <= i < |w.tasks| && w.tasks[i].Finished? && w.tasks[i].owner.Some?
      ensures w.tasks[i].owner.value != plan.local
    {
      BookedAsTaken(plan, es, i, w.tasks[i].owner.value);
    }
  }

  lemma PhaseFinished(plan: Plan, w: World)
    requires Inv(plan, w)
    ensures w.phase.Committing? || w.phase.Published? ==> AllFinished(w.tasks)
  {
    hide StaleCopies, OfferedHomes, Owners, CommitsLast;
  }

  lemma {:induction false} RunPlaces(plan: Plan, es: seq<Event>, i: nat)
    requires i < |plan.windows| && CarefulRun(plan, es)
    ensures OwedToOwners(Run(plan, es)) && Placed(plan, Run(plan, es), i)
  {
    hide CoordinatorStep, TaskStep, OutsideStep, Owners, Inv, AllFinished;
    if es == [] {
      BeginPlaces(plan, i);
    } else {
      var n := |es| - 1;
      var before, w, e := es[..n], Run(plan, es[..n]), es[n];
      assert Careful(plan, w, e);
      CarefulPrefix(plan, es, n);
      RunPlaces(plan, before, i);
      RunKeeps(plan, before);
      PhaseFinished(plan, w);
      OwnersArePeers(plan, before);
      StepOwes(plan, w, e);
      hide Placed, OwedToOwners, Careful;
      OwedAsOwners(w);
      TaskStepPlaces(plan, w, e, i);
      CoordinatorStepPlaces(plan, w, e, i);
      OutsideStepPlaces(plan, w, e, i);
    }
  }

  lemma OwedAsOwners(w: World)
    requires OwedToOwners(w)
    ensures w.phase.Committing? ==> w.phase.left <= Owners(w.tasks)
  {
  }

  lemma BeginPlaces(plan: Plan, i: nat)
    requires i < |plan.windows|
    ensures Placed(plan, Begin(plan), i) && OwedToOwners(Begin(plan))
  {
  }

  lemma CarefulPrefix(plan: Plan, es: seq<Event>, n: nat)
    requires CarefulRun(plan, es) && n <= |es|
    ensures CarefulRun(plan, es[..n])
  {
    hide Careful, Run;
    forall k | 0 <= k < n
      ensures Careful(plan, Run(plan, es[..n][..k]), es[..n][k])
    {
      assert es[..n][..k] == es[..k];
      assert Careful(plan, Run(plan, es[..k]), es[k]);
    }
  }

  /**
   A published upload is visible: if no copy is lost, every commit arrives, and every window is staged
   where its task ends, then the copy of every window is in the cache of the peer that took its offer,
   or of this node if it was uploaded here.
   */
  lemma PublishedIsVisible(plan: Plan, es: seq<Event>, i: nat)
    requires CarefulRun(plan, es) && i < |plan.windows| && Run(plan, es).phase.Published?
    ensures var w := Run(plan, es);
            if LastMove(plan, es, i) == Some(OfferTaken(i))
            then plan.windows[i].homes != [] && Copy(plan.windows[i].homes[0], i) in w.cached
            else LastMove(plan, es, i) == Some(UploadedHere(i)) && Copy(plan.local, i) in w.cached
  {
    RunPlaces(plan, es, i);
    RunTells(plan, es, i);
    RunKeeps(plan, es);
    var w := Run(plan, es);
    hide Run, LastMove, Inv;
    PhaseFinished(plan, w);
    assert w.tasks[i].Finished?;
  }

  // ----- what a failed upload leaves

  /** Nothing is staged once the upload is given up, and every discard arrives. */
  predicate Orderly(w: World, e: Event) {
    match e
    case PeerStages(_) => !w.phase.Unwinding? && !w.phase.Failed?
    case StageLocal(_) => !w.phase.Unwinding? && !w.phase.Failed?
    case DiscardOne(_, delivered) => delivered
    case _ => true
  }

  predicate OrderlyRun(plan: Plan, es: seq<Event>) {
    forall k :: 0 <= k < |es| ==> Orderly(Run(plan, es[..k]), es[k])
  }

  /** Copies are staged only here and at peers that can be told, and then only at those still to be. */
  predicate Staged(plan: Plan, w: World) {
    match w.phase
    case Failed => w.staged == {}
    case Unwinding(left) => forall c :: c in w.staged ==> c.node in left
    case _ => forall c :: c in w.staged ==> c.node == plan.local || c.node in OfferedHomes(plan)
  }

  lemma StepStaged(plan: Plan, w: World, e: Event)
    requires |w.tasks| == |plan.windows| && Staged(plan, w) && Orderly(w, e)
    requires e.PeerStages? && e.w < |plan.windows| && plan.windows[e.w].homes != [] ==>
               Offer(plan.windows[e.w].homes[0], e.w) in w.sent ==> Peer(plan, e.w, plan.windows[e.w].homes[0])
    ensures Staged(plan, Step(plan, w, e))
  {
    hide StaleCopies, Owners, AllFinished;
    if e.PeerStages? && e.w < |plan.windows| && plan.windows[e.w].homes != []
       && Peer(plan, e.w, plan.windows[e.w].homes[0])
    {
      assert plan.windows[e.w].homes[0] in OfferedHomes(plan);
    }
  }

  lemma {:induction false} RunStaged(plan: Plan, es: seq<Event>)
    requires OrderlyRun(plan, es)
    ensures Staged(plan, Run(plan, es))
  {
    hide Step, Inv, OfferedHomes, Orderly;
    if es != [] {
      var n := |es| - 1;
      var w, e := Run(plan, es[..n]), es[n];
      assert Orderly(w, e);
      forall k | 0 <= k < n
        ensures Orderly(Run(plan, es[..n][..k]), es[..n][k])
      {
        assert es[..n][..k] == es[..k];
        assert Orderly(Run(plan, es[..k]), es[k]);
      }
      RunStaged(plan, es[..n]);
      RunKeeps(plan, es[..n]);
      if e.PeerStages? && e.w < |plan.windows| && plan.windows[e.w].homes != [] {
        OffersToPeers(plan, w, e.w, plan.windows[e.w].homes[0]);
      }
      StepStaged(plan, w, e);
    }
  }

  /** A failed upload leaves nothing behind, here or at any peer, if nothing was staged after it was
      given up and every discard arrived. */
  lemma FailedLeavesNothing(plan: Plan, es: seq<Event>)
    requires OrderlyRun(plan, es) && Run(plan, es).phase.Failed?
    ensures Run(plan, es).staged == {}
  {
    RunStaged(plan, es);
  }

  // ----- every plan can be carried through

  lemma Append(plan: Plan, es: seq<Event>, e: Event)
    requires CarefulRun(plan, es) && Careful(plan, Run(plan, es), e)
    ensures Run(plan, es + [e]) == Step(plan, Run(plan, es), e) && CarefulRun(plan, es + [e])
  {
    hide Step, Careful;
    var more := es + [e];
    assert more[..|es|] == es;
    forall k | 0 <= k < |more|
      ensures Careful(plan, Run(plan, more[..k]), more[k])
    {
      assert k < |es| ==> more[..k] == es[..k] && Careful(plan, Run(plan, es[..k]), es[k]);
    }
  }

  /** The owner a window's first home makes, when it takes what it is offered. */
  function Taker(plan: Plan, i: nat): Option<NodeId>
    requires i < |plan.windows|
  {
    var homes := plan.windows[i].homes;
    if homes != [] && homes[0] != plan.local then Some(homes[0]) else None
  }

  /** The first `k` windows are uploaded, each by its taker or here, and the others not begun. */
  predicate Through(plan: Plan, w: World, k: nat) {
    && |w.tasks| == |plan.windows| && k <= |w.tasks| && w.phase.Uploading?
    && (forall i :: 0 <= i < k ==> w.tasks[i] == Finished(Taker(plan, i)))
    && (forall i :: k <= i < |w.tasks| ==> w.tasks[i] == Waiting)
  }

  lemma ByTaker(plan: Plan, es: seq<Event>, k: nat) returns (more: seq<Event>)
    requires CarefulRun(plan, es) && k < |plan.windows| && Taker(plan, k).Some?
    requires TaskIs(Run(plan, es), k, Ready)
    ensures CarefulRun(plan, more)
    ensures var w, v := Run(plan, es), Run(plan, more);
            v.phase == w.phase && v.tasks == w.tasks[k := Finished(Taker(plan, k))]
  {
    hide Run, CarefulRun;
    Append(plan, es, SendOffer(k));
    more := es + [SendOffer(k)];
    Append(plan, more, PeerStages(k));
    more := more + [PeerStages(k)];
    Append(plan, more, OfferTaken(k));
    more := more + [OfferTaken(k)];
  }

  lemma Here(plan: Plan, es: seq<Event>, k: nat) returns (more: seq<Event>)
    requires CarefulRun(plan, es) && k < |plan.windows| && TaskIs(Run(plan, es), k, Ready)
    ensures CarefulRun(plan, more)
    ensures var w, v := Run(plan, es), Run(plan, more);
            v.phase == w.phase && v.tasks == w.tasks[k := Finished(None)]
  {
    hide Run, CarefulRun;
    Append(plan, es, KeepLocal(k));
    more := es + [KeepLocal(k)];
    Append(plan, more, StageLocal(k));
    more := more + [StageLocal(k)];
    Append(plan, more, UploadedHere(k));
    more := more + [UploadedHere(k)];
  }

  lemma OneThrough(plan: Plan, es: seq<Event>, k: nat) returns (more: seq<Event>)
    requires CarefulRun(plan, es) && Through(plan, Run(plan, es), k) && k < |plan.windows|
    ensures CarefulRun(plan, more) && Through(plan, Run(plan, more), k + 1)
  {
    hide Run, CarefulRun;
    Append(plan, es, Dispatch(k));
    if Taker(plan, k).Some? {
      more := ByTaker(plan, es + [Dispatch(k)], k);
    } else {
      more := Here(plan, es + [Dispatch(k)], k);
    }
  }

  lemma {:induction false} AllThrough(plan: Plan, k: nat) returns (es: seq<Event>)
    requires k <= |plan.windows|
    ensures CarefulRun(plan, es) && Through(plan, Run(plan, es), k)
  {
    if k == 0 {
      es := [];
    } else {
      var before := AllThrough(plan, k - 1);
      es := OneThrough(plan, before, k - 1);
    }
  }

  /** Every task has ended as `AllThrough` ends it. */
  predicate Ends(plan: Plan, w: World) {
    |w.tasks| == |plan.windows| && forall i :: 0 <= i < |w.tasks| ==> w.tasks[i] == Finished(Taker(plan, i))
  }

  lemma {:induction false} AllInvalidated(plan: Plan, es: seq<Event>, todo: set<Copy>) returns (more: seq<Event>)
    requires CarefulRun(plan, es) && Ends(plan, Run(plan, es)) && Run(plan, es).phase == Invalidating(todo)
    ensures CarefulRun(plan, more) && Ends(plan, Run(plan, more)) && Run(plan, more).phase == Invalidating({})
    decreases |todo|
  {
    hide Run, CarefulRun;
    more := es;
    if todo != {} {
      var c :| c in todo;
      Append(plan, es, InvalidateOne(c, true));
      more := AllInvalidated(plan, es + [InvalidateOne(c, true)], todo - {c});
    }
  }

  lemma {:induction false} AllCommitted(plan: Plan, es: seq<Event>, left: set<NodeId>) returns (more: seq<Event>)
    requires CarefulRun(plan, es) && Ends(plan, Run(plan, es)) && Run(plan, es).phase == Committing(left)
    ensures CarefulRun(plan, more) && Ends(plan, Run(plan, more)) && Run(plan, more).phase == Committing({})
    decreases |left|
  {
    hide Run, CarefulRun;
    more := es;
    if left != {} {
      var n :| n in left;
      Append(plan, es, CommitOne(n, true));
      more := AllCommitted(plan, es + [CommitOne(n, true)], left - {n});
    }
  }

  lemma Completed(plan: Plan, es: seq<Event>) returns (more: seq<Event>)
    requires CarefulRun(plan, es) && Through(plan, Run(plan, es), |plan.windows|)
    ensures CarefulRun(plan, more) && Ends(plan, Run(plan, more)) && Run(plan, more).phase.Invalidating?
  {
    hide Run, CarefulRun, StaleCopies;
    Append(plan, es, StartComplete);
    more := es + [StartComplete];
    Append(plan, more, CompleteOk);
    more := more + [CompleteOk];
  }

  /** For every plan there is a run that loses nothing and publishes: every window whose first home is
      a peer ends with that peer, and every other one here. */
  lemma EveryPlanCanPublish(plan: Plan) returns (es: seq<Event>)
    ensures CarefulRun(plan, es) && Run(plan, es).phase.Published?
    ensures forall i :: 0 <= i < |plan.windows| ==>
              var homes := plan.windows[i].homes;
              Run(plan, es).tasks[i] == Finished(if homes != [] && homes[0] != plan.local then Some(homes[0]) else None)
  {
    hide Run, CarefulRun, StaleCopies, Owners, OfferedHomes;
    es := AllThrough(plan, |plan.windows|);
    es := Completed(plan, es);
    es := AllInvalidated(plan, es, Run(plan, es).phase.todo);
    Append(plan, es, InvalidatedAll);
    es := es + [InvalidatedAll];
    es := AllCommitted(plan, es, Run(plan, es).phase.left);
    Append(plan, es, CommitLocal);
    es := es + [CommitLocal];
  }

  // ----- the address lists, as the coordinator builds them

  /** A finished upload as it is collected: its window and who took it. */
  datatype Part = Part(window: nat, owner: Option<NodeId>)

  ghost predicate Collected(parts: seq<Part>, i: nat) {
    exists j :: 0 <= j < |parts| && parts[j].window == i
  }

  /** One part for every task, in the order they were collected. */
  ghost predicate PartsOf(parts: seq<Part>, tasks: seq<Task>) {
    && (forall p :: p in parts ==> p.window < |tasks| && tasks[p.window] == Finished(p.owner))
    && (forall i :: 0 <= i < |tasks| ==> Collected(parts, i))
  }

  ghost function Members<T>(s: seq<T>): set<T> { set x | x in s }

  /** The homes of one window that its holder is not. */
  method StaleHomes(plan: Plan, p: Part, before: seq<Copy>) returns (targets: seq<Copy>)
    requires p.window < |plan.windows|
    ensures Members(targets) == Members(before) + set j |
              0 <= j < |plan.windows[p.window].homes|
              && plan.windows[p.window].homes[j] != Holder(plan, Finished(p.owner))
              :: Copy(plan.windows[p.window].homes[j], p.window)
  {
    var homes := plan.windows[p.window].homes;
    var holder := if p.owner.Some? then p.owner.value else plan.local;
    targets := before;
    for j := 0 to |homes|
      invariant forall c :: c in targets <==>
        c in before || exists i :: 0 <= i < j && homes[i] != holder && c == Copy(homes[i], p.window)
    {
      if homes[j] != holder {
        targets := targets + [Copy(homes[j], p.window)];
      }
    }
  }

  /** Who must forget what, from the parts in whatever order they were collected. */
  method CollectStale(plan: Plan, parts: seq<Part>, ghost tasks: seq<Task>) returns (targets: seq<Copy>)
    requires |tasks| == |plan.windows| && PartsOf(parts, tasks)
    ensures Members(targets) == StaleCopies(plan, tasks)
  {
    targets := [];
    for k := 0 to |parts|
      invariant forall c :: c in targets <==>
          c in StaleCopies(plan, tasks) && exists j :: 0 <= j < k && parts[j].window == c.window
    {
      var p := parts[k];
      assert p in parts;
      ghost var before := targets;
      targets := StaleHomes(plan, p, targets);
      forall c: Copy
        ensures c in targets <==>
            c in StaleCopies(plan, tasks) && exists j :: 0 <= j < k + 1 && parts[j].window == c.window
      {
        assert c in targets <==> c in Members(targets);
        assert c in before <==> c in Members(before);
        assert c.window == p.window ==> parts[k].window == c.window;
      }
    }
    forall c | c in StaleCopies(plan, tasks)
      ensures c in targets
    {
      assert Collected(parts, c.window);
    }
  }

  /** The owners that took a window, each once. */
  method DistinctOwners(parts: seq<Part>, ghost tasks: seq<Task>) returns (owners: seq<NodeId>)
    requires PartsOf(parts, tasks)
    ensures Distinct(owners) && Members(owners) == Owners(tasks)
  {
    owners := [];
    for k := 0 to |parts|
      invariant Distinct(owners)
      invariant forall n :: n in owners <==> exists j :: 0 <= j < k && parts[j].owner == Some(n)
    {
      if parts[k].owner.Some? && parts[k].owner.value !in owners {
        owners := owners + [parts[k].owner.value];
      }
    }
    forall n | n in owners
      ensures n in Owners(tasks)
    {
      var j :| 0 <= j < |parts| && parts[j].owner == Some(n);
      assert parts[j] in parts;
      assert tasks[parts[j].window].owner.value == n;
    }
    forall n | n in Owners(tasks)
      ensures n in owners
    {
      var i :| 0 <= i < |tasks| && tasks[i].Finished? && tasks[i].owner.Some? && tasks[i].owner.value == n;
      assert Collected(parts, i);
      var j :| 0 <= j < |parts| && parts[j].window == i;
      assert parts[j] in parts && parts[j].owner == Some(n);
    }
  }

  /** Every peer the plan names first, each once, this node left out. */
  method CollectOffered(plan: Plan) returns (homes: seq<NodeId>)
    ensures Distinct(homes) && Members(homes) == OfferedHomes(plan)
  {
    homes := [];
    for k := 0 to |plan.windows|
      invariant Distinct(homes)
      invariant forall n :: n in homes <==> exists i :: 0 <= i < k && Peer(plan, i, n)
    {
      var hs := plan.windows[k].homes;
      if hs != [] {
        assert hs[0] != plan.local ==> Peer(plan, k, hs[0]);
        if hs[0] != plan.local && hs[0] !in homes {
          homes := homes + [hs[0]];
        }
      }
    }
    forall n | n in homes
      ensures n in OfferedHomes(plan)
    {
      var i :| 0 <= i < |plan.windows| && Peer(plan, i, n);
      assert plan.windows[i].homes[0] in OfferedHomes(plan);
    }
    forall n | n in OfferedHomes(plan)
      ensures n in homes
    {
      var i :| 0 <= i < |plan.windows| && plan.windows[i].homes != [] && plan.windows[i].homes[0] != plan.local
               && plan.windows[i].homes[0] == n;
      assert Peer(plan, i, n);
    }
  }
}
