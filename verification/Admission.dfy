/**
 The admission gate for peer-owned chunks: a count-min sketch says how often a chunk was fetched in
 the current window, a byte budget bounds what one window may admit, and every admission carries a
 fresh generation.
 */
module Admission {
  import opened Common
  import opened Bytes
  import opened Generations

  const DEPTH: nat := 4
  const WIDTH: nat := 2048
  const COUNTER_MAX: nat := 0xFFFF

  /** Any hash of a row number and a key. */
  type Hash<!K> = (nat, K) -> nat

  function Saturated(n: nat): U16 { if n > COUNTER_MAX then COUNTER_MAX else n }

  function Column<K>(hash: Hash<K>, r: nat, key: K): (c: nat)
    ensures c < WIDTH
  {
    hash(r, key) % WIDTH
  }

  /** How many of the fetches fall on counter `c` of row `r`. */
  function Hits<K>(hash: Hash<K>, fetches: seq<K>, r: nat, c: nat): nat {
    if fetches == [] then 0
    else
      var last := |fetches| - 1;
      Hits(hash, fetches[..last], r, c) + if Column(hash, r, fetches[last]) == c then 1 else 0
  }

  function Count<K(==)>(fetches: seq<K>, key: K): nat {
    if fetches == [] then 0
    else
      var last := |fetches| - 1;
      Count(fetches[..last], key) + if fetches[last] == key then 1 else 0
  }

  /** The least of the key's counters in the first `rows` rows. */
  function LeastOf<K>(hash: Hash<K>, fetches: seq<K>, key: K, rows: nat): U16 {
    if rows == 0 then COUNTER_MAX
    else
      var least := LeastOf(hash, fetches, key, rows - 1);
      var here := Saturated(Hits(hash, fetches, rows - 1, Column(hash, rows - 1, key)));
      if here < least then here else least
  }

  function Estimate<K>(hash: Hash<K>, fetches: seq<K>, key: K): U16 { LeastOf(hash, fetches, key, DEPTH) }

  lemma {:induction false} HitsCoverCount<K>(hash: Hash<K>, fetches: seq<K>, key: K, r: nat)
    ensures Hits(hash, fetches, r, Column(hash, r, key)) >= Count(fetches, key)
  {
    hide Column;
    if fetches != [] {
      HitsCoverCount(hash, fetches[..|fetches| - 1], key, r);
    }
  }

  lemma {:induction false} LeastCoversCount<K>(hash: Hash<K>, fetches: seq<K>, key: K, rows: nat)
    ensures LeastOf(hash, fetches, key, rows) >= Saturated(Count(fetches, key))
  {
    if rows > 0 {
      LeastCoversCount(hash, fetches, key, rows - 1);
      HitsCoverCount(hash, fetches, key, rows - 1);
    }
  }

  /** No fetched key but `key` shares its counter in row `r`. */
  ghost predicate Alone<K>(hash: Hash<K>, fetches: seq<K>, key: K, r: nat) {
    forall i :: 0 <= i < |fetches| && Column(hash, r, fetches[i]) == Column(hash, r, key) ==> fetches[i] == key
  }

  lemma {:induction false} AloneCounts<K>(hash: Hash<K>, fetches: seq<K>, key: K, r: nat)
    requires Alone(hash, fetches, key, r)
    ensures Hits(hash, fetches, r, Column(hash, r, key)) == Count(fetches, key)
  {
    hide Column;
    if fetches != [] {
      AloneCounts(hash, fetches[..|fetches| - 1], key, r);
    }
  }

  lemma {:induction false} LeastBelowRow<K>(hash: Hash<K>, fetches: seq<K>, key: K, rows: nat, r: nat)
    requires r < rows
    ensures LeastOf(hash, fetches, key, rows) <= Saturated(Hits(hash, fetches, r, Column(hash, r, key)))
  {
    if r < rows - 1 {
      LeastBelowRow(hash, fetches, key, rows - 1, r);
    }
  }

  /** The estimate never falls short of the saturated count, and is exact unless the key meets
      another one in every row. */
  lemma EstimateBounds<K>(hash: Hash<K>, fetches: seq<K>, key: K)
    ensures Estimate(hash, fetches, key) >= Saturated(Count(fetches, key))
    ensures (exists r :: 0 <= r < DEPTH && Alone(hash, fetches, key, r))
            ==> Estimate(hash, fetches, key) == Saturated(Count(fetches, key))
  {
    LeastCoversCount(hash, fetches, key, DEPTH);
    if r :| 0 <= r < DEPTH && Alone(hash, fetches, key, r) {
      LeastBelowRow(hash, fetches, key, DEPTH, r);
      AloneCounts(hash, fetches, key, r);
    }
  }

  /** How many of the fetches share the counter of `key` in row `r`. */
  function Sharers<K>(hash: Hash<K>, fetches: seq<K>, r: nat, key: K): nat {
    if fetches == [] then 0
    else
      var last := |fetches| - 1;
      Sharers(hash, fetches[..last], r, key) + if hash(r, fetches[last]) % 2048 == hash(r, key) % 2048 then 1 else 0
  }

  lemma {:induction false} SharersHit<K>(hash: Hash<K>, fetches: seq<K>, r: nat, key: K)
    ensures Hits(hash, fetches, r, Column(hash, r, key)) == Sharers(hash, fetches, r, key)
  {
    if fetches != [] {
      SharersHit(hash, fetches[..|fetches| - 1], r, key);
    }
  }

  lemma {:induction false} LeastReaches<K>(hash: Hash<K>, fetches: seq<K>, key: K, rows: nat, t: U16)
    ensures LeastOf(hash, fetches, key, rows) >= t
            <==> forall r :: 0 <= r < rows ==> Sharers(hash, fetches, r, key) >= t
  {
    hide Sharers, Hits, Column;
    if rows > 0 {
      LeastReaches(hash, fetches, key, rows - 1, t);
      SharersHit(hash, fetches, rows - 1, key);
    }
  }

  // ----- the window

  datatype Config = Config(threshold: U16, window: nat, budget: U64) {
    /** Thresholds are clamped to at least one fetch. */
    predicate Valid() { threshold >= 1 }
  }

  /** The fetches and the admitted bytes since the window began. */
  datatype Window<K> = Window(start: nat, fetches: seq<K>, bytes: U64)

  datatype Call<K> = Call(key: K, len: U64, now: nat)

  /** Whether a call at `now` begins a new window; a clock that went back has not moved on. */
  predicate Rolls<K>(cfg: Config, w: Window<K>, now: nat) {
    (if now >= w.start then now - w.start else 0) >= cfg.window
  }

  function Rolled<K>(cfg: Config, w: Window<K>, now: nat): Window<K> {
    if Rolls(cfg, w, now) then Window(now, [], 0) else w
  }

  predicate Hot<K>(cfg: Config, hash: Hash<K>, w: Window<K>, call: Call<K>) {
    Estimate(hash, Rolled(cfg, w, call.now).fetches + [call.key], call.key) >= cfg.threshold
  }

  predicate Admits<K>(cfg: Config, hash: Hash<K>, w: Window<K>, call: Call<K>) {
    && Hot(cfg, hash, w, call)
    && SaturatingAdd(Rolled(cfg, w, call.now).bytes, call.len) <= cfg.budget
  }

  /** `+=` on the byte tally, which wraps. */
  function WrappingAdd(a: U64, b: U64): U64 {
    if a + b > U64_MAX then a + b - 0x1_0000_0000_0000_0000 else a + b
  }

  function After<K>(cfg: Config, hash: Hash<K>, w: Window<K>, call: Call<K>): Window<K> {
    var v := Rolled(cfg, w, call.now);
    var bytes := if Admits(cfg, hash, w, call) then WrappingAdd(v.bytes, call.len) else v.bytes;
    Window(v.start, v.fetches + [call.key], bytes)
  }

  // ----- whole runs

  /** What became of one call: the number of its window, and whether it passed each gate. */
  datatype Verdict<K> = Verdict(window: nat, key: K, len: U64, hot: bool, admitted: bool)

  datatype Progress<K> = Progress(window: Window<K>, index: nat, verdicts: seq<Verdict<K>>)

  function Judge<K>(cfg: Config, hash: Hash<K>, p: Progress<K>, call: Call<K>): Progress<K> {
    var index := if Rolls(cfg, p.window, call.now) then p.index + 1 else p.index;
    var v := Verdict(index, call.key, call.len, Hot(cfg, hash, p.window, call), Admits(cfg, hash, p.window, call));
    Progress(After(cfg, hash, p.window, call), index, p.verdicts + [v])
  }

  function Run<K>(cfg: Config, hash: Hash<K>, at: nat, calls: seq<Call<K>>): Progress<K> {
    if calls == [] then Progress(Window(at, [], 0), 0, [])
    else Judge(cfg, hash, Run(cfg, hash, at, calls[..|calls| - 1]), calls[|calls| - 1])
  }

  /** The keys fetched in window `w`. */
  function FetchedIn<K>(vs: seq<Verdict<K>>, w: nat): seq<K> {
    if vs == [] then []
    else
      var last := vs[|vs| - 1];
      FetchedIn(vs[..|vs| - 1], w) + if last.window == w then [last.key] else []
  }

  /** The bytes admitted in window `w`. */
  function AdmittedIn<K>(vs: seq<Verdict<K>>, w: nat): nat {
    if vs == [] then 0
    else
      var last := vs[|vs| - 1];
      AdmittedIn(vs[..|vs| - 1], w) + if last.window == w && last.admitted then last.len else 0
  }

  /** A budget that the saturating comparison can tell from an overflowing sum. */
  predicate Tellable(cfg: Config) { cfg.budget < U64_MAX || cfg.window == 0 }

  /** In each of the four rows, the fetches that share the key's counter come to the threshold. */
  ghost predicate Frequent<K>(cfg: Config, hash: Hash<K>, fetches: seq<K>, key: K) {
    forall r :: 0 <= r < 4 ==> Sharers(hash, fetches, r, key) >= cfg.threshold
  }

  /** Every verdict is the one its window's fetches and admitted bytes call for. */
  ghost predicate Judged<K>(cfg: Config, hash: Hash<K>, vs: seq<Verdict<K>>, i: nat)
    requires i < |vs|
  {
    var v := vs[i];
    && (v.hot <==> Frequent(cfg, hash, FetchedIn(vs[..i + 1], v.window), v.key))
    && (Count(FetchedIn(vs[..i + 1], v.window), v.key) >= cfg.threshold ==> v.hot)
    && (v.admitted <==> v.hot && AdmittedIn(vs[..i], v.window) + v.len <= cfg.budget)
  }

  ghost predicate Inv<K(!new)>(cfg: Config, hash: Hash<K>, p: Progress<K>) {
    && p.window.fetches == FetchedIn(p.verdicts, p.index)
    && p.window.bytes == AdmittedIn(p.verdicts, p.index)
    && (forall w :: AdmittedIn(p.verdicts, w) <= cfg.budget)
    && (forall i :: 0 <= i < |p.verdicts| ==> p.verdicts[i].window <= p.index)
    && (forall i :: 0 <= i < |p.verdicts| ==> Judged(cfg, hash, p.verdicts, i))
  }

  lemma {:induction false} NothingInLater<K>(vs: seq<Verdict<K>>, w: nat)
    requires forall i :: 0 <= i < |vs| ==> vs[i].window < w
    ensures FetchedIn(vs, w) == [] && AdmittedIn(vs, w) == 0
  {
    if vs != [] {
      NothingInLater(vs[..|vs| - 1], w);
    }
  }

  lemma CountOfNext<K>(fetches: seq<K>, key: K)
    ensures Count(fetches + [key], key) == Count(fetches, key) + 1
  {
    assert (fetches + [key])[..|fetches|] == fetches;
  }

  lemma InNext<K>(vs: seq<Verdict<K>>, v: Verdict<K>, w: nat)
    ensures FetchedIn(vs + [v], w) == FetchedIn(vs, w) + if v.window == w then [v.key] else []
    ensures AdmittedIn(vs + [v], w) == AdmittedIn(vs, w) + if v.window == w && v.admitted then v.len else 0
  {
    assert (vs + [v])[..|vs|] == vs;
  }

  /** The rolled window is what the new window number has seen. */
  lemma RolledMatches<K(!new)>(cfg: Config, hash: Hash<K>, p: Progress<K>, now: nat)
    requires Inv(cfg, hash, p)
    ensures var index := if Rolls(cfg, p.window, now) then p.index + 1 else p.index;
            var v := Rolled(cfg, p.window, now);
            && v.fetches == FetchedIn(p.verdicts, index)
            && v.bytes == AdmittedIn(p.verdicts, index)
  {
    if Rolls(cfg, p.window, now) {
      NothingInLater(p.verdicts, p.index + 1);
    }
  }

  /** The saturating comparison is the exact one. */
  lemma ComparisonExact<K>(cfg: Config, w: Window<K>, call: Call<K>)
    requires Tellable(cfg)
    ensures SaturatingAdd(Rolled(cfg, w, call.now).bytes, call.len) <= cfg.budget
            <==> Rolled(cfg, w, call.now).bytes + call.len <= cfg.budget
  {
  }

  lemma StillJudged<K>(cfg: Config, hash: Hash<K>, vs: seq<Verdict<K>>, v: Verdict<K>, i: nat)
    requires i < |vs| && Judged(cfg, hash, vs, i)
    ensures Judged(cfg, hash, vs + [v], i)
  {
    hide FetchedIn, AdmittedIn, Count, Frequent;
    assert (vs + [v])[..i + 1] == vs[..i + 1] && (vs + [v])[..i] == vs[..i];
  }

  /** The new verdict is judged right, its window's bytes stay in budget, and the tally is exact. */
  lemma NewJudged<K>(cfg: Config, hash: Hash<K>, vs: seq<Verdict<K>>, w: Window<K>, call: Call<K>, v: Verdict<K>)
    requires cfg.Valid()
    requires w.fetches == FetchedIn(vs, v.window) && w.bytes == AdmittedIn(vs, v.window) <= cfg.budget
    requires v.key == call.key && v.len == call.len
    requires v.hot <==> Estimate(hash, w.fetches + [call.key], call.key) >= cfg.threshold
    requires v.admitted <==> v.hot && w.bytes + call.len <= cfg.budget
    ensures Judged(cfg, hash, vs + [v], |vs|)
    ensures AdmittedIn(vs + [v], v.window) <= cfg.budget
    ensures FetchedIn(vs + [v], v.window) == w.fetches + [call.key]
    ensures AdmittedIn(vs + [v], v.window) == if v.admitted then WrappingAdd(w.bytes, call.len) else w.bytes
  {
    hide FetchedIn, AdmittedIn, Count, Estimate;
    InNext(vs, v, v.window);
    var all := vs + [v];
    assert all[..|vs| + 1] == all && all[..|vs|] == vs;
    EstimateBounds(hash, w.fetches + [call.key], call.key);
    EstimateReaches(cfg, hash, w.fetches + [call.key], call.key);
    hide Frequent;
  }

  lemma EstimateReaches<K>(cfg: Config, hash: Hash<K>, fetches: seq<K>, key: K)
    ensures Estimate(hash, fetches, key) >= cfg.threshold <==> Frequent(cfg, hash, fetches, key)
  {
    hide LeastOf;
    LeastReaches(hash, fetches, key, DEPTH, cfg.threshold);
    if Frequent(cfg, hash, fetches, key) {
      forall r | 0 <= r < DEPTH
        ensures Sharers(hash, fetches, r, key) >= cfg.threshold
      {
      }
    }
    if Estimate(hash, fetches, key) >= cfg.threshold {
      forall r | 0 <= r < 4
        ensures Sharers(hash, fetches, r, key) >= cfg.threshold
      {
      }
      assert Frequent(cfg, hash, fetches, key);
    }
  }

  /** What one call adds, told by its window number and the window it meets. */
  lemma JudgeParts<K(!new)>(cfg: Config, hash: Hash<K>, p: Progress<K>, call: Call<K>)
    returns (w: Window<K>, v: Verdict<K>)
    requires Tellable(cfg) && Inv(cfg, hash, p)
    ensures var q := Judge(cfg, hash, p, call);
            && q.verdicts == p.verdicts + [v] && q.index == v.window >= p.index
            && v.key == call.key && v.len == call.len
            && w.fetches == FetchedIn(p.verdicts, v.window) && w.bytes == AdmittedIn(p.verdicts, v.window)
            && (v.hot <==> Estimate(hash, w.fetches + [call.key], call.key) >= cfg.threshold)
            && (v.admitted <==> v.hot && w.bytes + call.len <= cfg.budget)
            && q.window.fetches == w.fetches + [call.key]
            && q.window.bytes == if v.admitted then WrappingAdd(w.bytes, call.len) else w.bytes
  {
    w := Rolled(cfg, p.window, call.now);
    v := Judge(cfg, hash, p, call).verdicts[|p.verdicts|];
    RolledMatches(cfg, hash, p, call.now);
    ComparisonExact(cfg, p.window, call);
    hide FetchedIn, AdmittedIn, Estimate, Rolls, Rolled, SaturatingAdd, WrappingAdd, Inv;
  }

  lemma JudgeKeeps<K(!new)>(cfg: Config, hash: Hash<K>, p: Progress<K>, call: Call<K>)
    requires cfg.Valid() && Tellable(cfg) && Inv(cfg, hash, p)
    ensures Inv(cfg, hash, Judge(cfg, hash, p, call))
  {
    hide Judge, Rolls, Rolled, SaturatingAdd, FetchedIn, AdmittedIn, Judged, Tellable, WrappingAdd, Estimate;
    var w, v := JudgeParts(cfg, hash, p, call);
    NewJudged(cfg, hash, p.verdicts, w, call, v);
    var all := p.verdicts + [v];
    forall x: nat
      ensures AdmittedIn(all, x) <= cfg.budget
    {
      if x != v.window {
        InNext(p.verdicts, v, x);
      }
    }
    forall i | 0 <= i < |all|
      ensures Judged(cfg, hash, all, i)
    {
      if i < |p.verdicts| {
        StillJudged(cfg, hash, p.verdicts, v, i);
      }
    }
  }

  lemma {:induction false} RunKeeps<K(!new)>(cfg: Config, hash: Hash<K>, at: nat, calls: seq<Call<K>>)
    requires cfg.Valid() && Tellable(cfg)
    ensures Inv(cfg, hash, Run(cfg, hash, at, calls))
  {
    if calls != [] {
      hide Inv, Judge;
      RunKeeps(cfg, hash, at, calls[..|calls| - 1]);
      JudgeKeeps(cfg, hash, Run(cfg, hash, at, calls[..|calls| - 1]), calls[|calls| - 1]);
    }
  }

  /**
   For every hash and every run of calls: a call passes the frequency gate exactly when, in each of
   four rows, enough of its window's fetches share its counter, so the K-th fetch of a key in its
   window always does; a call is admitted exactly when it passes that gate and fits what the window has left; and
   no window admits more bytes than the budget.
   */
  lemma EveryRunJudged<K(!new)>(cfg: Config, hash: Hash<K>, at: nat, calls: seq<Call<K>>)
    requires cfg.Valid() && Tellable(cfg)
    ensures var vs := Run(cfg, hash, at, calls).verdicts;
            && |vs| == |calls|
            && (forall i :: 0 <= i < |vs| ==> vs[i].key == calls[i].key && vs[i].len == calls[i].len)
            && (forall i :: 0 <= i < |vs| ==> Judged(cfg, hash, vs, i))
            && (forall w :: AdmittedIn(vs, w) <= cfg.budget)
  {
    RunKeeps(cfg, hash, at, calls);
    VerdictPerCall(cfg, hash, at, calls);
  }

  lemma {:induction false} VerdictPerCall<K>(cfg: Config, hash: Hash<K>, at: nat, calls: seq<Call<K>>)
    ensures var vs := Run(cfg, hash, at, calls).verdicts;
            && |vs| == |calls|
            && (forall i :: 0 <= i < |vs| ==> vs[i].key == calls[i].key && vs[i].len == calls[i].len)
  {
    hide Hot, Admits, After, Rolls;
    if calls != [] {
      VerdictPerCall(cfg, hash, at, calls[..|calls| - 1]);
    }
  }

  // ----- the windows, told by the clock alone

  /** The position of the first verdict given in window `w`. */
  function FirstIn<K>(vs: seq<Verdict<K>>, w: nat): (n: nat)
    ensures n <= |vs| && (n < |vs| ==> vs[n].window == w)
    ensures forall k :: 0 <= k < n ==> vs[k].window != w
  {
    if vs == [] then 0
    else
      var last := |vs| - 1;
      var n := FirstIn(vs[..last], w);
      if n < last || vs[last].window == w then n else |vs|
  }

  /** When window `w` began: the gate's own start for the first, and else its first call. */
  function StartOf<K>(at: nat, calls: seq<Call<K>>, vs: seq<Verdict<K>>, w: nat): nat
    requires |calls| == |vs|
  {
    var n := FirstIn(vs, w);
    if w == 0 || n == |vs| then at else calls[n].now
  }

  function PreviousWindow<K>(vs: seq<Verdict<K>>, i: nat): nat
    requires i <= |vs|
  {
    if i == 0 then 0 else vs[i - 1].window
  }

  /** Call `i` stays in the window of the call before it, unless that window began at least
      `cfg.window` earlier: then it opens the next one. */
  ghost predicate Numbered<K>(cfg: Config, at: nat, calls: seq<Call<K>>, vs: seq<Verdict<K>>, i: nat)
    requires i < |calls| == |vs|
  {
    var before := PreviousWindow(vs, i);
    var start := StartOf(at, calls, vs, before);
    vs[i].window == if calls[i].now >= start + cfg.window || cfg.window == 0 then before + 1 else before
  }

  ghost predicate Timed<K>(cfg: Config, at: nat, calls: seq<Call<K>>, p: Progress<K>) {
    && |p.verdicts| == |calls|
    && p.index == PreviousWindow(p.verdicts, |calls|)
    && p.window.start == StartOf(at, calls, p.verdicts, p.index)
    && (forall i :: 0 <= i < |calls| ==> p.verdicts[i].window <= p.index)
    && (forall i :: 0 <= i < |calls| ==> Numbered(cfg, at, calls, p.verdicts, i))
  }

  lemma FirstStays<K>(vs: seq<Verdict<K>>, v: Verdict<K>, w: nat)
    ensures FirstIn(vs, w) < |vs| || v.window == w ==> FirstIn(vs + [v], w) == FirstIn(vs, w)
  {
    assert (vs + [v])[..|vs|] == vs;
  }

  lemma StillNumbered<K>(cfg: Config, at: nat, calls: seq<Call<K>>, vs: seq<Verdict<K>>,
                         c: Call<K>, v: Verdict<K>, i: nat)
    requires i < |calls| == |vs| && Numbered(cfg, at, calls, vs, i)
    ensures Numbered(cfg, at, calls + [c], vs + [v], i)
  {
    hide FirstIn;
    FirstStays(vs, v, PreviousWindow(vs, i));
  }

  /** The window number and the window start, told from the start of the window before. */
  lemma JudgeTime<K>(cfg: Config, hash: Hash<K>, p: Progress<K>, call: Call<K>) returns (v: Verdict<K>)
    ensures var q := Judge(cfg, hash, p, call);
            var rolls := call.now >= p.window.start + cfg.window || cfg.window == 0;
            && q.verdicts == p.verdicts + [v] && q.index == v.window
            && v.window == (if rolls then p.index + 1 else p.index)
            && q.window.start == (if rolls then call.now else p.window.start)
  {
    hide Hot, Admits, WrappingAdd;
    v := Judge(cfg, hash, p, call).verdicts[|p.verdicts|];
  }

  lemma JudgeTimed<K>(cfg: Config, hash: Hash<K>, at: nat, calls: seq<Call<K>>, p: Progress<K>, call: Call<K>)
    requires Timed(cfg, at, calls, p)
    ensures Timed(cfg, at, calls + [call], Judge(cfg, hash, p, call))
  {
    hide Judge, FirstIn;
    var v := JudgeTime(cfg, hash, p, call);
    FirstStays(p.verdicts, v, p.index);
    FirstStays(p.verdicts, v, v.window);
    forall i | 0 <= i < |calls|
      ensures Numbered(cfg, at, calls + [call], p.verdicts + [v], i)
    {
      StillNumbered(cfg, at, calls, p.verdicts, call, v, i);
    }
  }

  lemma {:induction false} RunTimed<K>(cfg: Config, hash: Hash<K>, at: nat, calls: seq<Call<K>>)
    ensures Timed(cfg, at, calls, Run(cfg, hash, at, calls))
  {
    if calls != [] {
      hide Timed, Judge;
      var before := calls[..|calls| - 1];
      RunTimed(cfg, hash, at, before);
      JudgeTimed(cfg, hash, at, before, Run(cfg, hash, at, before), calls[|calls| - 1]);
      assert calls == before + [calls[|calls| - 1]];
    }
  }

  /** For every run, the times of the calls alone number the windows: the first window began with
      the gate and every other with the first call numbered so, and a call opens the next window
      exactly when the one before it began at least `cfg.window` ago. */
  lemma WindowsFollowTime<K>(cfg: Config, hash: Hash<K>, at: nat, calls: seq<Call<K>>, i: nat)
    requires i < |calls|
    ensures var vs := Run(cfg, hash, at, calls).verdicts;
            && |vs| == |calls|
            && var before := if i == 0 then 0 else vs[i - 1].window;
               var first := FirstIn(vs, before);
               && (before == 0 || first < i)
               && var start := if before == 0 then at else calls[first].now;
                  vs[i].window == if calls[i].now >= start + cfg.window || cfg.window == 0 then before + 1 else before
  {
    hide Run, FirstIn;
    RunTimed(cfg, hash, at, calls);
    assert Numbered(cfg, at, calls, Run(cfg, hash, at, calls).verdicts, i);
  }

  // ----- the largest budget

  function Warming<K>(key: K, n: nat): seq<Call<K>> {
    if n == 0 then [] else Warming(key, n - 1) + [Call(key, 0, 0)]
  }

  /** A first window that has seen only `n` fetches of `key`, all empty. */
  ghost predicate Warm<K(!new)>(p: Progress<K>, key: K, n: nat) {
    && p.window.start == 0 && p.index == 0
    && Count(p.window.fetches, key) == n
    && AdmittedIn(p.verdicts, 0) == 0
  }

  lemma JudgeInWindow<K(!new)>(cfg: Config, hash: Hash<K>, p: Progress<K>, key: K, len: U64)
    requires cfg.window > 0 && p.window.start == 0 && p.index == 0
    ensures var q := Judge(cfg, hash, p, Call(key, len, 0));
            && q.window.start == 0 && q.index == 0
            && Count(q.window.fetches, key) == Count(p.window.fetches, key) + 1
            && AdmittedIn(q.verdicts, 0) - AdmittedIn(p.verdicts, 0) ==
               (if Admits(cfg, hash, p.window, Call(key, len, 0)) then len else 0)
  {
    hide Count, AdmittedIn, FetchedIn, Admits, Hot;
    var q := Judge(cfg, hash, p, Call(key, len, 0));
    CountOfNext(p.window.fetches, key);
    InNext(p.verdicts, q.verdicts[|p.verdicts|], 0);
  }

  lemma AlwaysRoom<K(!new)>(cfg: Config, hash: Hash<K>, w: Window<K>, key: K, len: U64)
    requires !Tellable(cfg) && w.start == 0 && Count(w.fetches, key) + 1 >= cfg.threshold
    ensures cfg.window > 0 && Admits(cfg, hash, w, Call(key, len, 0))
  {
    hide Count, Estimate;
    CountOfNext(w.fetches, key);
    EstimateBounds(hash, w.fetches + [key], key);
  }

  lemma {:induction false} WarmRun<K(!new)>(cfg: Config, hash: Hash<K>, key: K, n: nat)
    requires cfg.window > 0
    ensures Warm(Run(cfg, hash, 0, Warming(key, n)), key, n)
  {
    hide Judge;
    if n > 0 {
      var p := Run(cfg, hash, 0, Warming(key, n - 1));
      WarmRun(cfg, hash, key, n - 1);
      RunNext(cfg, hash, 0, Warming(key, n - 1), Call(key, 0, 0));
      JudgeInWindow(cfg, hash, p, key, 0);
    }
  }

  lemma RunNext<K>(cfg: Config, hash: Hash<K>, at: nat, calls: seq<Call<K>>, call: Call<K>)
    ensures Run(cfg, hash, at, calls + [call]) == Judge(cfg, hash, Run(cfg, hash, at, calls), call)
  {
    assert (calls + [call])[..|calls|] == calls;
  }

  function Overflowing<K>(key: K, threshold: nat): seq<Call<K>>
    requires threshold >= 1
  {
    Warming(key, threshold - 1) + [Call(key, U64_MAX, 0)] + [Call(key, 1, 0)]
  }

  /** With the largest budget there is, one window can admit more than it. */
  lemma LargestBudgetOverrun<K(!new)>(cfg: Config, hash: Hash<K>, key: K)
    requires cfg.Valid() && !Tellable(cfg)
    ensures AdmittedIn(Run(cfg, hash, 0, Overflowing(key, cfg.threshold)).verdicts, 0) > cfg.budget
  {
    hide Run, Judge, Count, AdmittedIn, Admits, Warming;
    var warm := Warming(key, cfg.threshold - 1);
    var first, second := Call(key, U64_MAX, 0), Call(key, 1, 0);
    var p := Run(cfg, hash, 0, warm);
    WarmRun(cfg, hash, key, cfg.threshold - 1);
    AlwaysRoom(cfg, hash, p.window, key, U64_MAX);
    JudgeInWindow(cfg, hash, p, key, U64_MAX);
    RunNext(cfg, hash, 0, warm, first);
    var q := Run(cfg, hash, 0, warm + [first]);
    AlwaysRoom(cfg, hash, q.window, key, 1);
    JudgeInWindow(cfg, hash, q, key, 1);
    RunNext(cfg, hash, 0, warm + [first], second);
  }

  /** The budget bounds every window of every run exactly when it is below the largest `u64`, or
      windows are so short that each holds one call. */
  lemma BudgetHoldsIff<K(!new)>(cfg: Config, hash: Hash<K>, key: K)
    requires cfg.Valid()
    ensures Tellable(cfg) <==> forall at, calls, w :: AdmittedIn(Run(cfg, hash, at, calls).verdicts, w) <= cfg.budget
  {
    hide AdmittedIn, Run;
    if Tellable(cfg) {
      forall at, calls, w
        ensures AdmittedIn(Run(cfg, hash, at, calls).verdicts, w) <= cfg.budget
      {
        EveryRunJudged(cfg, hash, at, calls);
      }
    } else {
      LargestBudgetOverrun(cfg, hash, key);
    }
  }

  // ----- the gate

  /** The sketch's counters, and the fetches since they were last cleared. */
  class CountMinSketch<K(==,!new)> {
    const hash: Hash<K>
    const rows: array2<U16>
    ghost var fetches: seq<K>

    /** Every counter is the saturated number of fetches that fall on it. */
    ghost predicate Valid()
      reads this, rows
    {
      && rows.Length0 == DEPTH && rows.Length1 == WIDTH
      && (forall r, c :: 0 <= r < DEPTH && 0 <= c < WIDTH ==> rows[r, c] == Saturated(Hits(hash, fetches, r, c)))
    }

    constructor (h: Hash<K>)
      ensures Valid() && fetches == [] && hash == h && fresh(rows)
    {
      hash := h;
      rows := new U16[DEPTH, WIDTH]((r, c) => 0);
      fetches := [];
    }

    /** Count one fetch in every row; the least counter is the estimate. */
    method Increment(key: K) returns (estimate: U16)
      requires Valid()
      modifies this, rows
      ensures Valid() && fetches == old(fetches) + [key]
      ensures estimate == Estimate(hash, fetches, key)
    {
      ghost var all := fetches + [key];
      assert all[..|fetches|] == fetches;
      estimate := COUNTER_MAX;
      for r := 0 to DEPTH
        invariant forall i, c :: 0 <= i < r && 0 <= c < WIDTH ==> rows[i, c] == Saturated(Hits(hash, all, i, c))
        invariant forall i, c :: r <= i < DEPTH && 0 <= c < WIDTH ==> rows[i, c] == old(rows[i, c])
        invariant estimate == LeastOf(hash, all, key, r) && fetches == old(fetches)
      {
        hide Column;
        var c := Column(hash, r, key);
        rows[r, c] := Saturated(rows[r, c] + 1);
        if rows[r, c] < estimate {
          estimate := rows[r, c];
        }
      }
      fetches := all;
    }

    /** Start over with every counter at zero. */
    method Clear()
      requires Valid()
      modifies this, rows
      ensures Valid() && fetches == []
    {
      forall r, c | 0 <= r < DEPTH && 0 <= c < WIDTH {
        rows[r, c] := 0;
      }
      fetches := [];
    }
  }

  /** A bounded record of admitted keys, the oldest insertion out first. */
  class AdmittedKeys<K(==,!new)> {
    const cap: nat
    var order: seq<K>
    var gens: map<K, U64>

    ghost predicate Valid()
      reads this
    {
      && cap >= 1 && |order| <= cap
      && Distinct(order) && (forall k :: k in order <==> k in gens)
    }

    constructor (limit: nat)
      requires limit >= 1
      ensures Valid() && cap == limit && order == []
    {
      cap, order, gens := limit, [], map[];
    }

    /** Record an admission: a tracked key takes the new generation in place; a new one goes to the
        back, and the front makes way for it when the record is full. */
    method Insert(key: K, generation: U64)
      requires Valid()
      modifies this
      ensures Valid() && key in gens && gens[key] == generation
      ensures order == if key in old(order) then old(order)
                       else (if |old(order)| < cap then old(order) else old(order)[1..]) + [key]
      ensures forall k :: k in order && k != key ==> k in old(gens) && gens[k] == old(gens)[k]
    {
      if key in gens {
        gens := gens[key := generation];
        return;
      }
      if |order| >= cap {
        var oldest := order[0];
        order := order[1..];
        gens := gens - {oldest};
        assert forall k :: k in old(order) <==> k == oldest || k in order;
      }
      order := order + [key];
      gens := gens[key := generation];
    }
  }

  /** The file a reservation is saved in; saving replaces it as a whole, unless it cannot be
      written, which is only logged. */
  class MarkFile {
    var content: Option<string>
    const writable: bool

    constructor (text: Option<string>, canWrite: bool)
      ensures content == text && writable == canWrite
    {
      content, writable := text, canWrite;
    }

    method Save(mark: U64)
      modifies this
      ensures content == if writable then Some(Saved(mark)) else old(content)
    {
      if writable {
        content := Some(Saved(mark));
      }
    }
  }

  class AdmissionGate<K(==,!new)> {
    const cfg: Config
    const sketch: CountMinSketch<K>
    const admitted: AdmittedKeys<K>
    /** Where generations are reserved; a gate without a file keeps none across restarts. */
    const file: MarkFile?
    var windowStart: nat
    var bytes: U64
    var next: U64
    var reserved: U64

    ghost predicate Valid()
      reads this, sketch, sketch.rows, admitted
    {
      cfg.Valid() && sketch.Valid() && admitted.Valid()
    }

    ghost function Current(): Window<K>
      reads this, sketch
    {
      Window(windowStart, sketch.fetches, bytes)
    }

    /** A gate that resumes above the mark in `store`, if it has one. */
    constructor (config: Config, hash: Hash<K>, tracked: nat, at: nat, store: MarkFile?)
      requires config.Valid() && tracked >= 1
      ensures Valid() && cfg == config && sketch.hash == hash && file == store
      ensures Current() == Window(at, [], 0)
      ensures next == reserved == if store == null then 0 else Load(store.content)
      ensures fresh(sketch) && fresh(sketch.rows) && fresh(admitted)
    {
      cfg := config;
      sketch := new CountMinSketch(hash);
      admitted := new AdmittedKeys(tracked);
      file := store;
      windowStart, bytes := at, 0;
      var mark := if store == null then 0 else Load(store.content);
      next, reserved := mark, mark;
    }

    /** Take the next generation; a block it opens is saved before it is returned. */
    method NextGeneration() returns (generation: U64)
      modifies this`next, this`reserved, file
      ensures Counter(next, reserved) == Advance(Counter(old(next), old(reserved))) && generation == next
      ensures file != null ==>
                file.content == if generation > old(reserved) && file.writable then Some(Saved(reserved))
                                else old(file.content)
    {
      hide Saved;
      next := if next == U64_MAX then 0 else next + 1;
      generation := next;
      if generation > reserved {
        reserved := SaturatingAdd(generation, RESERVE_BLOCK - 1);
        if file != null {
          file.Save(reserved);
        }
      }
    }

    /** Record a fetch and decide whether to keep a local copy. */
    method AdmitAt(key: K, len: U64, now: nat) returns (r: Option<U64>)
      requires Valid()
      modifies this, sketch, sketch.rows, admitted, file
      ensures Valid() && Current() == After(cfg, sketch.hash, old(Current()), Call(key, len, now))
      ensures r.Some? <==> Admits(cfg, sketch.hash, old(Current()), Call(key, len, now))
      ensures r.Some? ==> Counter(next, reserved) == Advance(Counter(old(next), old(reserved))) && r.value == next
      ensures r.Some? ==> key in admitted.gens && admitted.gens[key] == r.value
      ensures r.None? ==> next == old(next) && reserved == old(reserved) && admitted.gens == old(admitted.gens)
      ensures file != null ==>
                file.content == if r.Some? && r.value > old(reserved) && file.writable then Some(Saved(reserved))
                                else old(file.content)
    {
      hide Estimate, Advance, Saved;
      var elapsed := if now >= windowStart then now - windowStart else 0;
      if elapsed >= cfg.window {
        sketch.Clear();
        bytes := 0;
        windowStart := now;
      }
      var estimate := sketch.Increment(key);
      if estimate < cfg.threshold {
        return None;
      }
      if SaturatingAdd(bytes, len) > cfg.budget {
        return None;
      }
      bytes := WrappingAdd(bytes, len);
      var generation := NextGeneration();
      admitted.Insert(key, generation);
      r := Some(generation);
    }
  }
}
