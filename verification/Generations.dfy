/**
 Admission generations across restarts: a process reserves a block of generations in a file before
 it returns the first of them, so that no process ever returns what an earlier one already did.
 */
module Generations {
  import opened Common
  import opened Bytes
  import opened Text

  const RESERVE_BLOCK: nat := 1024

  /** A counter and how far it has been reserved. */
  datatype Counter = Counter(next: U64, reserved: U64)

  function SaturatingAdd(a: U64, b: nat): U64 { if a + b > U64_MAX then U64_MAX else a + b }

  /** Take the next generation; at the end of `u64` the counter wraps. */
  function Advance(c: Counter): Counter {
    var generation := if c.next == U64_MAX then 0 else c.next + 1;
    Counter(generation, if generation > c.reserved then SaturatingAdd(generation, RESERVE_BLOCK - 1) else c.reserved)
  }

  /** What the file's text is read as: anything but a number is no mark at all. */
  function Load(file: Option<string>): U64 {
    match file
    case None => 0
    case Some(text) =>
      match ParseUnsigned(Trim(text), 10, U64_MAX)
      case None => 0
      case Some(n) => n
  }

  function Saved(mark: U64): string { Digits(mark, 10) }

  lemma LoadOfSaved(mark: U64)
    ensures Load(Some(Saved(mark))) == mark
  {
    hide Digits, ParseUnsigned;
    assert NoSpace(Saved(mark));
    TrimSolid(Saved(mark));
    ParseOfDigits(mark, 10, U64_MAX);
  }

  // ----- processes, one after another, over one file

  /** `Persisting` has taken a generation but not yet saved the block it opens. */
  datatype Process =
    | Down
    | Idle(counter: Counter)
    | Persisting(counter: Counter)

  /** The file, the process running on it, and every generation ever returned, in order. `base` and
      `persists` are the mark this process started from and how often it has saved, `floor` is what
      had been returned last when it started, and `wrapped` says that a counter has come round. */
  datatype World = World(
    file: Option<string>,
    process: Process,
    returned: seq<U64>,
    base: U64,
    floor: U64,
    persists: nat,
    wrapped: bool)

  /** The last generation returned, or zero. */
  function Last(returned: seq<U64>): U64 { if returned == [] then 0 else returned[|returned| - 1] }

  /** A save replaces the file as a whole, so a crash during one leaves the old text or the new. */
  datatype Event = Boot | Take | Save | SaveFails | Crash(replaced: bool)

  function Return(w: World, c: Counter): World {
    w.(process := Idle(c), returned := w.returned + [c.next])
  }

  /** One event; one that is not due changes nothing. */
  function Step(w: World, e: Event): World {
    match e
    case Boot =>
      if w.process.Down? then
        w.(process := Idle(Counter(Load(w.file), Load(w.file))), base := Load(w.file), floor := Last(w.returned),
           persists := 0)
      else w
    case Take =>
      if w.process.Idle? then
        var was, c := w.process.counter, Advance(w.process.counter);
        var v := w.(wrapped := w.wrapped || was.next == U64_MAX);
        if c.next > was.reserved then v.(process := Persisting(c), persists := v.persists + 1) else Return(v, c)
      else w
    case Save =>
      if w.process.Persisting? then
        Return(w.(file := Some(Saved(w.process.counter.reserved))), w.process.counter)
      else w
    case SaveFails =>
      if w.process.Persisting? then Return(w, w.process.counter) else w
    case Crash(replaced) =>
      if w.process.Persisting? && replaced
      then w.(process := Down, file := Some(Saved(w.process.counter.reserved)))
      else w.(process := Down)
  }

  function Run(w: World, es: seq<Event>): World {
    if es == [] then w else Step(Run(w, es[..|es| - 1]), es[|es| - 1])
  }

  /** Whatever an earlier installation left in the file. */
  function Fresh(file: Option<string>): World { World(file, Down, [], 0, 0, 0, false) }

  predicate Increasing(s: seq<U64>) {
    forall i, j :: 0 <= i < j < |s| ==> s[i] < s[j]
  }

  predicate AllAtMost(s: seq<U64>, bound: U64) {
    forall i :: 0 <= i < |s| ==> s[i] <= bound
  }

  /** The blocks a process has opened: the last one starts where the earlier ones end. */
  predicate Blocks(base: U64, persists: nat, c: Counter) {
    if persists == 0 then c == Counter(base, base)
    else
      var first := base + RESERVE_BLOCK * (persists - 1) + 1;
      && first <= c.next <= c.reserved <= U64_MAX
      && c.reserved == SaturatingAdd(first, RESERVE_BLOCK - 1)
  }

  predicate Inv(w: World) {
    && Increasing(w.returned)
    && AllAtMost(w.returned, Load(w.file))
    && match w.process
       case Down => true
       case Idle(c) => AllAtMost(w.returned, c.next) && c.reserved == Load(w.file) && Blocks(w.base, w.persists, c)
       case Persisting(c) => c.next > Load(w.file) && c.next <= c.reserved && Blocks(w.base, w.persists, c)
  }

  lemma TakeKeepsBlocks(base: U64, persists: nat, c: Counter)
    requires Blocks(base, persists, c) && c.next < U64_MAX && c.next <= c.reserved
    ensures var d := Advance(c);
            Blocks(base, if d.next > c.reserved then persists + 1 else persists, d)
  {
  }

  lemma ReturnKeeps(w: World, c: Counter)
    requires Increasing(w.returned) && Blocks(w.base, w.persists, c)
    requires forall i :: 0 <= i < |w.returned| ==> w.returned[i] < c.next
    requires c.next <= c.reserved == Load(w.file)
    ensures Inv(Return(w, c))
  {
    hide Load, Blocks;
  }

  lemma StepKeeps(w: World, e: Event)
    requires Inv(w) && !e.SaveFails? && !Step(w, e).wrapped
    ensures Inv(Step(w, e))
  {
    hide Load, Blocks;
    match e
    case Boot =>
      if w.process.Down? {
        var mark := Load(w.file);
        assert Blocks(mark, 0, Counter(mark, mark)) by { StartBlocks(mark); }
      }
    case Take =>
      if w.process.Idle? {
        var c := w.process.counter;
        var d := Advance(c);
        assert c.next <= c.reserved by { BlocksBounded(w.base, w.persists, c); }
        TakeKeepsBlocks(w.base, w.persists, c);
        assert d.next <= d.reserved;
        if d.next <= c.reserved {
          ReturnKeeps(w, d);
        }
      }
    case Save =>
      if w.process.Persisting? {
        var c := w.process.counter;
        LoadOfSaved(c.reserved);
        ReturnKeeps(w.(file := Some(Saved(c.reserved))), c);
      }
    case Crash(replaced) =>
      if w.process.Persisting? {
        LoadOfSaved(w.process.counter.reserved);
      }
  }

  lemma StartBlocks(mark: U64)
    ensures Blocks(mark, 0, Counter(mark, mark))
  {
  }

  lemma BlocksBounded(base: U64, persists: nat, c: Counter)
    requires Blocks(base, persists, c)
    ensures c.next <= c.reserved
  {
  }

  lemma WrappedStays(w: World, e: Event)
    ensures w.wrapped ==> Step(w, e).wrapped
  {
  }

  lemma {:induction false} RunKeeps(file: Option<string>, es: seq<Event>)
    requires forall i :: 0 <= i < |es| ==> !es[i].SaveFails?
    requires !Run(Fresh(file), es).wrapped
    ensures Inv(Run(Fresh(file), es))
  {
    hide Step, Load;
    if es != [] {
      var k := |es| - 1;
      WrappedStays(Run(Fresh(file), es[..k]), es[k]);
      RunKeeps(file, es[..k]);
      StepKeeps(Run(Fresh(file), es[..k]), es[k]);
    }
  }

  /**
   Across any sequence of processes over one file, crashing anywhere, while no save fails and no
   counter comes round: the generations returned strictly increase, the file bounds them all, and a
   process saves at most once for every block of generations it takes.
   */
  lemma GenerationsNeverRepeat(file: Option<string>, es: seq<Event>)
    requires forall i :: 0 <= i < |es| ==> !es[i].SaveFails?
    requires !Run(Fresh(file), es).wrapped
    ensures var w := Run(Fresh(file), es);
            && Increasing(w.returned)
            && AllAtMost(w.returned, Load(w.file))
            && (!w.process.Down? && w.persists > 0 ==>
                  1024 * (w.persists - 1) < w.process.counter.next - w.base)
  {
    hide Run, Load;
    RunKeeps(file, es);
  }

  lemma RunNext(w: World, es: seq<Event>, e: Event)
    ensures Run(w, es + [e]) == Step(Run(w, es), e)
  {
    assert (es + [e])[..|es|] == es;
  }

  const LOST_SAVE: seq<Event> := [Boot, Take, SaveFails]

  /** A failed save, which is only logged, gives that promise up: whatever the file holds, the next
      process returns the same generation again. */
  lemma FailedSaveRepeats(file: Option<string>)
    requires Load(file) < U64_MAX
    ensures Run(Fresh(file), LOST_SAVE + [Crash(false)] + [Boot] + [Take] + [Save]).returned
            == [Load(file) + 1, Load(file) + 1]
  {
    hide *;
    var w, es := Fresh(file), LOST_SAVE;
    LostSave(file);
    RestartTakes(Run(w, es));
    RunNext(w, es, Crash(false));
    RunNext(w, es + [Crash(false)], Boot);
    RunNext(w, es + [Crash(false)] + [Boot], Take);
    RunNext(w, es + [Crash(false)] + [Boot] + [Take], Save);
  }

  /** A restarted process returns the generation behind the file's mark first. */
  lemma RestartTakes(w: World)
    requires Load(w.file) < U64_MAX && w.process.Idle?
    ensures Step(Step(Step(Step(w, Crash(false)), Boot), Take), Save).returned == w.returned + [Load(w.file) + 1]
  {
    hide Load, Saved;
  }

  lemma LostSave(file: Option<string>)
    requires Load(file) < U64_MAX
    ensures var w := Run(Fresh(file), LOST_SAVE);
            w.returned == [Load(file) + 1] && w.file == file && w.process.Idle?
  {
    assert LOST_SAVE == [] + [Boot] + [Take] + [SaveFails];
    var w := Fresh(file);
    assert Run(w, []) == w;
    hide Run, Load;
    RunNext(w, [], Boot);
    RunNext(w, [] + [Boot], Take);
    RunNext(w, [] + [Boot] + [Take], SaveFails);
  }

  /** A crash during a save leaves the old mark, and the next process returns the generation that was
      about to be; or the new one, and the next process starts behind the whole block of 1024. */
  lemma CrashedSave(file: Option<string>, replaced: bool)
    requires Load(file) + 1024 < U64_MAX
    ensures Run(Fresh(file), [Boot] + [Take] + [Crash(replaced)] + [Boot] + [Take] + [Save]).returned
            == [Load(file) + if replaced then 1025 else 1]
  {
    hide *;
    var w := Fresh(file);
    RunNone(w);
    assert [] + [Boot] == [Boot];
    RunNext(w, [], Boot);
    RunNext(w, [Boot], Take);
    RunNext(w, [Boot] + [Take], Crash(replaced));
    RunNext(w, [Boot] + [Take] + [Crash(replaced)], Boot);
    RunNext(w, [Boot] + [Take] + [Crash(replaced)] + [Boot], Take);
    RunNext(w, [Boot] + [Take] + [Crash(replaced)] + [Boot] + [Take], Save);
    CrashedTake(file, replaced);
    FirstTake(Step(Step(Step(w, Boot), Take), Crash(replaced)));
  }

  lemma RunNone(w: World)
    ensures Run(w, []) == w
  {
  }

  lemma CrashedTake(file: Option<string>, replaced: bool)
    requires Load(file) + 1024 < U64_MAX
    ensures var w := Step(Step(Step(Fresh(file), Boot), Take), Crash(replaced));
            && w.process.Down? && w.returned == [] && Load(w.file) == Load(file) + if replaced then 1024 else 0
  {
    hide Load, Saved, Advance, Last;
    var m := Load(file);
    LoadOfSaved(m + 1024);
    OpensBlock(m);
    var booted := Step(Fresh(file), Boot);
    assert booted.process == Idle(Counter(m, m)) && booted.file == file && booted.returned == [];
    var taken := Step(booted, Take);
    assert taken.process == Persisting(Counter(m + 1, m + 1024)) && taken.file == file && taken.returned == [];
  }

  lemma OpensBlock(mark: U64)
    requires mark + 1024 < U64_MAX
    ensures Advance(Counter(mark, mark)) == Counter(mark + 1, mark + 1024)
  {
  }

  lemma FirstTake(w: World)
    requires w.process.Down? && Load(w.file) < U64_MAX
    ensures Step(Step(Step(w, Boot), Take), Save).returned == w.returned + [Load(w.file) + 1]
  {
    hide Load, Saved;
  }

  // ----- exactly when generations increase

  /** Event `k` returns a generation. */
  predicate Returns(file: Option<string>, es: seq<Event>, k: nat)
    requires k < |es|
  {
    |Run(Fresh(file), es[..k + 1]).returned| > |Run(Fresh(file), es[..k]).returned|
  }

  /** If event `k` returns a generation, its process booted from a mark no lower than the last one
      returned by then. */
  predicate Fed(file: Option<string>, es: seq<Event>, k: nat)
    requires k < |es|
  {
    var w := Run(Fresh(file), es[..k]);
    Returns(file, es, k) ==> w.base >= w.floor
  }

  /** What holds while every returning process was fed: one that was not has returned nothing. */
  predicate Rising(w: World) {
    && Increasing(w.returned)
    && match w.process
       case Down => true
       case Idle(c) =>
         if w.base >= w.floor then c.next >= w.base && AllAtMost(w.returned, c.next)
         else c.next == w.base && Last(w.returned) == w.floor
       case Persisting(c) =>
         if w.base >= w.floor then c.next > w.base && (forall i :: 0 <= i < |w.returned| ==> w.returned[i] < c.next)
         else c.next == w.base + 1 && Last(w.returned) == w.floor
  }

  lemma BelowLast(s: seq<U64>, g: U64)
    requires s != [] && g <= Last(s)
    ensures !Increasing(s + [g])
  {
    assert (s + [g])[|s| - 1] >= (s + [g])[|s|];
  }

  /** One event, from a rising world: it goes on rising, unless an unfed process returns. */
  lemma StepRises(w: World, e: Event)
    requires Rising(w) && !Step(w, e).wrapped
    ensures var gives := |Step(w, e).returned| > |w.returned|;
            if gives && w.base < w.floor then !Increasing(Step(w, e).returned) else Rising(Step(w, e))
  {
    hide Load, Saved;
    var v := Step(w, e);
    if |v.returned| > |w.returned| && w.base < w.floor {
      BelowLast(w.returned, v.returned[|w.returned|]);
    }
    if e.Boot? && w.process.Down? && w.returned != [] {
      assert AllAtMost(w.returned, Last(w.returned));
    }
  }

  lemma DropsStay(w: World, e: Event)
    requires !Increasing(w.returned)
    ensures !Increasing(Step(w, e).returned)
  {
    hide Load, Saved;
    var i, j :| 0 <= i < j < |w.returned| && w.returned[i] >= w.returned[j];
    var after := Step(w, e).returned;
    assert after[i] == w.returned[i] && after[j] == w.returned[j];
  }

  lemma {:induction false} RunRises(file: Option<string>, es: seq<Event>)
    requires !Run(Fresh(file), es).wrapped
    ensures if forall k :: 0 <= k < |es| ==> Fed(file, es, k) then Rising(Run(Fresh(file), es))
            else !Increasing(Run(Fresh(file), es).returned)
  {
    hide Step, Rising, Increasing;
    if es == [] {
      FreshRises(file);
    } else {
      var n := |es| - 1;
      var before, w := es[..n], Run(Fresh(file), es[..n]);
      WrappedStays(w, es[n]);
      RunRises(file, before);
      assert es[..n + 1] == es;
      forall k | 0 <= k < n
        ensures Fed(file, before, k) <==> Fed(file, es, k)
      {
        assert before[..k] == es[..k] && before[..k + 1] == es[..k + 1];
      }
      var last := Fed(file, es, n);
      assert last <==> (|Run(Fresh(file), es).returned| > |w.returned| ==> w.base >= w.floor);
      assert (forall k :: 0 <= k < |es| ==> Fed(file, es, k)) <==>
             last && forall k :: 0 <= k < n ==> Fed(file, before, k);
      if forall k :: 0 <= k < n ==> Fed(file, before, k) {
        StepRises(w, es[n]);
      } else {
        DropsStay(w, es[n]);
      }
    }
  }

  lemma FreshRises(file: Option<string>)
    ensures Rising(Fresh(file))
  {
  }

  lemma RisingIncreases(w: World)
    requires Rising(w)
    ensures Increasing(w.returned)
  {
  }

  /** Whatever saves fail and wherever processes crash, while no counter comes round: generations
      strictly increase exactly when no process that goes on to return one booted from a mark below
      the last returned by then. */
  lemma IncreasingIffFed(file: Option<string>, es: seq<Event>)
    requires !Run(Fresh(file), es).wrapped
    ensures Increasing(Run(Fresh(file), es).returned) <==> forall k :: 0 <= k < |es| ==> Fed(file, es, k)
  {
    hide Fed, Increasing, Rising, Run;
    RunRises(file, es);
    if forall k :: 0 <= k < |es| ==> Fed(file, es, k) {
      RisingIncreases(Run(Fresh(file), es));
    }
  }
}
