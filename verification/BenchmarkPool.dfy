/**
  The benchmark's worker pool: a shared cursor over the jobs and a cost ceiling checked before each start.
  A step is what one worker does between two awaits; actions interleave in any order.
*/
module BenchmarkPool {
  import opened Counting
  import opened Options

  /** Where a worker stands: not yet started, waiting for the job at an index, or returned. */
  datatype Worker = Ready | Running(job: nat) | Returned

  datatype Record = Record(job: nat, cost: nat)

  datatype Pool = Pool(
    jobs: nat,
    ceiling: Option<int>,
    cursor: nat,
    spent: nat,
    stopped: bool,
    workers: seq<Worker>,
    records: seq<Record>)

  datatype Action = Start(worker: nat) | Finish(worker: nat, cost: nat)

  predicate OverCeiling(p: Pool)
  {
    p.ceiling.Some? && p.spent >= p.ceiling.value
  }

  /** The head of the loop: stop at the ceiling, else take the next index, else return. */
  function TakeNext(p: Pool, w: nat): Pool
    requires w < |p.workers|
  {
    if OverCeiling(p) then p.(stopped := true, workers := p.workers[w := Returned])
    else if p.cursor >= p.jobs then p.(cursor := p.cursor + 1, workers := p.workers[w := Returned])
    else p.(cursor := p.cursor + 1, workers := p.workers[w := Running(p.cursor)])
  }

  predicate Enabled(p: Pool, a: Action)
  {
    && a.worker < |p.workers|
    && (a.Start? ==> p.workers[a.worker].Ready?)
    && (a.Finish? ==> p.workers[a.worker].Running?)
  }

  /** The job's run or its failure gives one record; then the loop goes on without a pause. */
  function Step(p: Pool, a: Action): Pool
    requires Enabled(p, a)
  {
    match a
    case Start(w) => TakeNext(p, w)
    case Finish(w, cost) =>
      TakeNext(p.(records := p.records + [Record(p.workers[w].job, cost)], spent := p.spent + cost), w)
  }

  /** The number of workers an option asks for: at least one, rounded down; a text that is no number gives none. */
  function Workers(option: Option<real>): nat
  {
    if option.None? then 0 else if option.value < 1.0 then 1 else option.value.Floor
  }

  /** A ceiling in millionths; nothing is ever above a text that is no number, so that is no ceiling. */
  function Ceiling(option: Option<real>): Option<int>
  {
    if option.None? then None else Some(CeilOf(option.value * 1_000_000.0))
  }

  /** The least whole amount that is not below `x`. */
  function CeilOf(x: real): int
  {
    if x.Floor as real == x then x.Floor else x.Floor + 1
  }

  function Initial(jobs: nat, ceiling: Option<int>, concurrency: nat): Pool
  {
    Pool(jobs, ceiling, 0, 0, false, seq(if concurrency < jobs then concurrency else jobs, _ => Ready), [])
  }

  /** An execution: every action is enabled when it happens. */
  predicate Runs(p: Pool, actions: seq<Action>)
    decreases |actions|
  {
    actions == [] || (Enabled(p, actions[0]) && Runs(Step(p, actions[0]), actions[1..]))
  }

  function After(p: Pool, actions: seq<Action>): Pool
    requires Runs(p, actions)
    decreases |actions|
  {
    if actions == [] then p else After(Step(p, actions[0]), actions[1..])
  }

  // ----- each job at most once, one record per taken job -----

  function Taken(p: Pool): nat
  {
    if p.cursor < p.jobs then p.cursor else p.jobs
  }

  /** How many records a job has, and how many workers are on it. */
  function Recorded(rs: seq<Record>, job: nat): nat
  {
    if rs == [] then 0
    else Recorded(rs[..|rs| - 1], job) + (if rs[|rs| - 1].job == job then 1 else 0)
  }

  function Working(ws: seq<Worker>, job: nat): nat
  {
    if ws == [] then 0
    else Working(ws[..|ws| - 1], job) + On(ws[|ws| - 1], job)
  }

  function On(w: Worker, job: nat): nat
  {
    if w == Running(job) then 1 else 0
  }

  lemma {:induction false} WorkingUpdate(ws: seq<Worker>, w: nat, to: Worker, job: nat)
    requires w < |ws|
    ensures Working(ws[w := to], job) + On(ws[w], job) == Working(ws, job) + On(to, job)
  {
    var n := |ws| - 1;
    if w == n {
      assert ws[w := to][..n] == ws[..n];
    } else {
      assert ws[w := to][..n] == ws[..n][w := to];
      WorkingUpdate(ws[..n], w, to, job);
    }
  }

  /** Each taken job has exactly one record or one worker, any other job has none. */
  ghost predicate EachOnce(p: Pool)
  {
    forall job: nat :: Recorded(p.records, job) + Working(p.workers, job) == if job < Taken(p) then 1 else 0
  }

  lemma StepKeepsOnce(p: Pool, a: Action)
    requires Enabled(p, a) && EachOnce(p)
    ensures EachOnce(Step(p, a))
  {
    var q, w := Step(p, a), a.worker;
    assert q.workers == p.workers[w := q.workers[w]];
    if a.Finish? { assert q.records[..|p.records|] == p.records; }
    forall job: nat ensures Recorded(q.records, job) + Working(q.workers, job) == if job < Taken(q) then 1 else 0 {
      WorkingUpdate(p.workers, w, q.workers[w], job);
      assert Recorded(p.records, job) + Working(p.workers, job) == if job < Taken(p) then 1 else 0;
    }
  }

  lemma {:induction false} NoneWorking(ws: seq<Worker>, job: nat)
    requires forall i | 0 <= i < |ws| :: !ws[i].Running?
    ensures Working(ws, job) == 0
  {
    if ws != [] { NoneWorking(ws[..|ws| - 1], job); }
  }

  lemma {:induction false} AlwaysOnce(p: Pool, actions: seq<Action>)
    requires Runs(p, actions) && EachOnce(p)
    ensures EachOnce(After(p, actions))
    decreases |actions|
  {
    if actions != [] {
      StepKeepsOnce(p, actions[0]);
      AlwaysOnce(Step(p, actions[0]), actions[1..]);
    }
  }

  /** In every interleaving a taken job has exactly one record or is being run, and no job is taken twice. */
  lemma EachJobAtMostOnce(jobs: nat, ceiling: Option<int>, concurrency: nat, actions: seq<Action>)
    requires Runs(Initial(jobs, ceiling, concurrency), actions)
    ensures EachOnce(After(Initial(jobs, ceiling, concurrency), actions))
  {
    var start := Initial(jobs, ceiling, concurrency);
    forall job: nat ensures Working(start.workers, job) == 0 { NoneWorking(start.workers, job); }
    AlwaysOnce(start, actions);
  }

  // ----- without a ceiling everything is recorded -----

  predicate AllReturned(p: Pool)
  {
    forall i | 0 <= i < |p.workers| :: p.workers[i].Returned?
  }

  /** Without a ceiling a worker returns only after the cursor has passed the last job. */
  ghost predicate ReturnedLate(p: Pool)
  {
    p.ceiling.None? && ((exists i | 0 <= i < |p.workers| :: p.workers[i].Returned?) ==> p.cursor >= p.jobs)
  }

  lemma {:induction false} AlwaysReturnedLate(p: Pool, actions: seq<Action>)
    requires Runs(p, actions) && ReturnedLate(p)
    ensures ReturnedLate(After(p, actions)) && |After(p, actions).workers| == |p.workers|
    ensures After(p, actions).jobs == p.jobs
    decreases |actions|
  {
    if actions != [] {
      AlwaysReturnedLate(Step(p, actions[0]), actions[1..]);
    }
  }

  lemma NoWorkerNoRun(p: Pool, actions: seq<Action>)
    requires p.workers == [] && Runs(p, actions)
    ensures actions == []
  {
  }

  /** With no ceiling a finished run has recorded every job, and every job once, if there was a worker; else none. */
  lemma FinishedRunRecordsAll(jobs: nat, concurrency: nat, actions: seq<Action>)
    requires Runs(Initial(jobs, None, concurrency), actions)
    requires AllReturned(After(Initial(jobs, None, concurrency), actions))
    ensures forall job: nat ::
              Recorded(After(Initial(jobs, None, concurrency), actions).records, job)
              == if job < jobs && concurrency > 0 then 1 else 0
  {
    var start := Initial(jobs, None, concurrency);
    if start.workers == [] {
      NoWorkerNoRun(start, actions);
    } else {
      EachJobAtMostOnce(jobs, None, concurrency, actions);
      AlwaysReturnedLate(start, actions);
      var p := After(start, actions);
      assert p.workers[0].Returned?;
      forall job: nat ensures Recorded(p.records, job) == if job < jobs then 1 else 0 {
        NoneWorking(p.workers, job);
      }
    }
  }

  ghost predicate Ended(jobs: nat, ceiling: Option<int>, concurrency: nat, actions: seq<Action>)
  {
    Runs(Initial(jobs, ceiling, concurrency), actions) && AllReturned(After(Initial(jobs, ceiling, concurrency), actions))
  }

  /** Every run that ends without a ceiling has recorded every job. */
  ghost predicate RecordsAll(jobs: nat, concurrency: nat)
  {
    forall actions, job: nat | Ended(jobs, None, concurrency, actions) && job < jobs ::
      Recorded(After(Initial(jobs, None, concurrency), actions).records, job) == 1
  }

  /** That is so exactly when the option is a number, or there is nothing to do. */
  lemma RecordsAllExactlyWhen(jobs: nat, option: Option<real>)
    ensures RecordsAll(jobs, Workers(option)) <==> option.Some? || jobs == 0
  {
    if option.Some? {
      forall actions, job: nat | Ended(jobs, None, Workers(option), actions) && job < jobs
        ensures Recorded(After(Initial(jobs, None, Workers(option)), actions).records, job) == 1
      {
        FinishedRunRecordsAll(jobs, Workers(option), actions);
      }
    } else if jobs > 0 {
      assert Ended(jobs, None, 0, []);
      assert Recorded(After(Initial(jobs, None, 0), []).records, 0) == 0;
    }
  }

  // ----- how many jobs are under way at once -----

  /** The workers that have a job. */
  function Busy(p: Pool): set<nat>
  {
    set w: nat | w < |p.workers| && p.workers[w].Running?
  }

  /** The next `n` workers are started. */
  function Starts(from: nat, n: nat): seq<Action>
    decreases n
  {
    if n == 0 then [] else [Start(from)] + Starts(from + 1, n - 1)
  }

  /** The first workers have been started, and no ceiling stops them. */
  predicate Opened(p: Pool, k: nat)
  {
    && p.ceiling.None? && k == p.cursor <= |p.workers| <= p.jobs
    && forall w | 0 <= w < |p.workers| :: if w < k then p.workers[w].Running? else p.workers[w].Ready?
  }

  lemma {:induction false} StartsOpen(p: Pool, from: nat, n: nat)
    requires Opened(p, from) && from + n <= |p.workers|
    ensures Runs(p, Starts(from, n)) && Opened(After(p, Starts(from, n)), from + n)
    decreases n
  {
    if n > 0 {
      var q := Step(p, Start(from));
      assert Starts(from, n)[0] == Start(from) && Starts(from, n)[1..] == Starts(from + 1, n - 1);
      assert Opened(q, from + 1);
      StartsOpen(q, from + 1, n - 1);
    }
  }

  lemma {:induction false} WorkersStay(p: Pool, actions: seq<Action>)
    requires Runs(p, actions)
    ensures |After(p, actions).workers| == |p.workers|
    decreases |actions|
  {
    if actions != [] { WorkersStay(Step(p, actions[0]), actions[1..]); }
  }

  ghost predicate Reaches(jobs: nat, option: Option<real>, k: nat, actions: seq<Action>)
  {
    && Runs(Initial(jobs, None, Workers(option)), actions)
    && |Busy(After(Initial(jobs, None, Workers(option)), actions))| == k
  }

  /**
    So many jobs can be under way at once, read off the option: no more than there are, and one, or as many as
    the number given; none if it is no number.
  */
  lemma AtOnceExactly(jobs: nat, option: Option<real>, k: nat)
    ensures (exists actions :: Reaches(jobs, option, k, actions))
            <==> k == 0 || (k <= jobs && option.Some? && (k == 1 || k as real <= option.value))
  {
    var start := Initial(jobs, None, Workers(option));
    if k <= |start.workers| {
      StartsOpen(start, 0, k);
      var p := After(start, Starts(0, k));
      WorkersStay(start, Starts(0, k));
      assert Busy(p) == Below(k);
      assert Reaches(jobs, option, k, Starts(0, k));
    }
    if actions :| Reaches(jobs, option, k, actions) {
      WorkersStay(start, actions);
      FewerThan(Busy(After(start, actions)), |start.workers|);
    }
  }

  // ----- what a worker does next -----

  /** A worker goes on exactly when less than the ceiling given, in dollars, was spent, and a job is left. */
  lemma NextJobExactly(p: Pool, w: nat, option: Option<real>)
    requires w < |p.workers| && p.ceiling == Ceiling(option)
    ensures TakeNext(p, w).workers[w].Running? <==>
            (option.None? || p.spent as real / 1000000.0 < option.value) && p.cursor < p.jobs
    ensures TakeNext(p, w).workers[w].Running? ==> TakeNext(p, w).workers[w].job == p.cursor && TakeNext(p, w).cursor == p.cursor + 1
  {
  }

  // ----- the ceiling -----

  function Cost(rs: seq<Record>): nat
  {
    if rs == [] then 0 else Cost(rs[..|rs| - 1]) + rs[|rs| - 1].cost
  }

  function RunningCount(ws: seq<Worker>): nat
  {
    if ws == [] then 0 else RunningCount(ws[..|ws| - 1]) + (if ws[|ws| - 1].Running? then 1 else 0)
  }

  lemma {:induction false} CountUpdate(ws: seq<Worker>, w: nat, to: Worker)
    requires w < |ws|
    ensures RunningCount(ws[w := to]) + (if ws[w].Running? then 1 else 0) == RunningCount(ws) + (if to.Running? then 1 else 0)
    ensures RunningCount(ws) <= |ws|
  {
    var n := |ws| - 1;
    if w == n {
      assert ws[w := to][..n] == ws[..n];
      CountAtMost(ws);
    } else {
      assert ws[w := to][..n] == ws[..n][w := to];
      CountUpdate(ws[..n], w, to);
    }
  }

  lemma {:induction false} CountAtMost(ws: seq<Worker>)
    ensures RunningCount(ws) <= |ws|
  {
    if ws != [] { CountAtMost(ws[..|ws| - 1]); }
  }

  /**
    `k` records have come in since some job last started; then less than the ceiling was spent. Those
    records and the running jobs all belong to jobs that were running at that moment.
  */
  ghost predicate StartedBelow(p: Pool, k: nat)
    requires p.ceiling.Some?
  {
    && k <= |p.records|
    && Cost(p.records) == p.spent
    && k + RunningCount(p.workers) <= |p.workers|
    && (p.records == [] || Cost(p.records[..|p.records| - k]) < p.ceiling.value)
    && (RunningCount(p.workers) > 0 ==> Cost(p.records[..|p.records| - k]) < p.ceiling.value)
  }

  lemma StartBelow(p: Pool, w: nat, k: nat) returns (k': nat)
    requires p.ceiling.Some? && w < |p.workers| && p.workers[w].Ready? && StartedBelow(p, k)
    ensures StartedBelow(TakeNext(p, w), k')
  {
    var q := TakeNext(p, w);
    CountUpdate(p.workers, w, q.workers[w]);
    CountAtMost(q.workers);
    k' := if q.workers[w].Running? then 0 else k;
    assert p.records[..|p.records|] == p.records;
  }

  lemma FinishBelow(p: Pool, w: nat, cost: nat, k: nat) returns (k': nat)
    requires p.ceiling.Some? && w < |p.workers| && p.workers[w].Running? && StartedBelow(p, k)
    ensures StartedBelow(Step(p, Finish(w, cost)), k')
  {
    var q := Step(p, Finish(w, cost));
    assert q.workers == p.workers[w := q.workers[w]];
    CountUpdate(p.workers, w, q.workers[w]);
    CountAtMost(q.workers);
    assert q.records[..|p.records|] == p.records;
    assert q.records[..|q.records| - (k + 1)] == p.records[..|p.records| - k];
    assert q.records[..|q.records|] == q.records;
    k' := if q.workers[w].Running? then 0 else k + 1;
  }

  lemma StepStartedBelow(p: Pool, a: Action, k: nat) returns (k': nat)
    requires p.ceiling.Some? && Enabled(p, a) && StartedBelow(p, k)
    ensures Step(p, a).ceiling == p.ceiling && StartedBelow(Step(p, a), k') && |Step(p, a).workers| == |p.workers|
  {
    match a
    case Start(w) => k' := StartBelow(p, w, k);
    case Finish(w, cost) => k' := FinishBelow(p, w, cost, k);
  }

  lemma {:induction false} AlwaysStartedBelow(p: Pool, actions: seq<Action>, k: nat) returns (k': nat)
    requires p.ceiling.Some? && Runs(p, actions) && StartedBelow(p, k)
    ensures After(p, actions).ceiling == p.ceiling && StartedBelow(After(p, actions), k')
    ensures |After(p, actions).workers| == |p.workers|
    decreases |actions|
  {
    k' := k;
    if actions != [] {
      var k1 := StepStartedBelow(p, actions[0], k);
      k' := AlwaysStartedBelow(Step(p, actions[0]), actions[1..], k1);
    }
  }

  /**
    With a ceiling: at any moment of any interleaving, what is spent beyond the ceiling is the cost of the
    last few records, at most as many as there are workers.
  */
  lemma SpendBelowCeiling(jobs: nat, ceiling: int, concurrency: nat, actions: seq<Action>) returns (k: nat)
    requires Runs(Initial(jobs, Some(ceiling), concurrency), actions)
    ensures var p := After(Initial(jobs, Some(ceiling), concurrency), actions);
      && k <= concurrency && k <= |p.records| && p.spent == Cost(p.records)
      && (p.records != [] ==> Cost(p.records[..|p.records| - k]) < ceiling)
  {
    var start := Initial(jobs, Some(ceiling), concurrency);
    NoneRunningCount(start.workers);
    k := AlwaysStartedBelow(start, actions, 0);
  }

  lemma {:induction false} NoneRunningCount(ws: seq<Worker>)
    requires forall i | 0 <= i < |ws| :: !ws[i].Running?
    ensures RunningCount(ws) == 0
  {
    if ws != [] { NoneRunningCount(ws[..|ws| - 1]); }
  }

  lemma OnceMore(k: nat, top: nat)
    requires k > 0
    ensures k * top == (k - 1) * top + top
  {
  }

  lemma {:induction false} CostSplit(rs: seq<Record>, k: nat, top: nat)
    requires k <= |rs| && forall i | 0 <= i < |rs| :: rs[i].cost <= top
    ensures Cost(rs) <= Cost(rs[..|rs| - k]) + k * top
    decreases k
  {
    if k > 0 {
      var n := |rs| - 1;
      CostSplit(rs[..n], k - 1, top);
      assert rs[..n][..n - (k - 1)] == rs[..|rs| - k];
      OnceMore(k, top);
    } else {
      assert rs[..|rs|] == rs;
    }
  }

  /** In numbers: below the ceiling plus `concurrency` times the dearest job. */
  lemma SpendBound(jobs: nat, ceiling: int, concurrency: nat, actions: seq<Action>, top: nat)
    requires ceiling > 0 && Runs(Initial(jobs, Some(ceiling), concurrency), actions)
    requires forall r | r in After(Initial(jobs, Some(ceiling), concurrency), actions).records :: r.cost <= top
    ensures After(Initial(jobs, Some(ceiling), concurrency), actions).spent < ceiling + concurrency * top
  {
    var p := After(Initial(jobs, Some(ceiling), concurrency), actions);
    var k := SpendBelowCeiling(jobs, ceiling, concurrency, actions);
    CostSplit(p.records, k, top);
    MoreTimes(k, concurrency, top);
  }

  // ----- a ceiling that is no number -----

  lemma {:induction false} NeverStops(p: Pool, actions: seq<Action>)
    requires Runs(p, actions) && p.ceiling.None? && !p.stopped
    ensures !After(p, actions).stopped
    decreases |actions|
  {
    if actions != [] { NeverStops(Step(p, actions[0]), actions[1..]); }
  }

  ghost predicate Stops(jobs: nat, ceiling: Option<int>, concurrency: nat, actions: seq<Action>)
  {
    Runs(Initial(jobs, ceiling, concurrency), actions) && After(Initial(jobs, ceiling, concurrency), actions).stopped
  }

  /** Some run is stopped by the ceiling exactly when the ceiling is a number and there is a job and a worker. */
  lemma StopsExactlyWhen(jobs: nat, option: Option<real>, concurrency: nat)
    ensures (exists actions :: Stops(jobs, Ceiling(option), concurrency, actions))
            <==> option.Some? && jobs > 0 && concurrency > 0
  {
    var start := Initial(jobs, Ceiling(option), concurrency);
    if option.Some? && jobs > 0 && concurrency > 0 {
      var dear := if start.ceiling.value > 0 then start.ceiling.value else 0;
      StoppedByOne(start, dear);
      if OverCeiling(start) {
        assert Stops(jobs, Ceiling(option), concurrency, [Start(0)]);
      } else {
        assert Stops(jobs, Ceiling(option), concurrency, [Start(0), Finish(0, dear)]);
      }
    }
    if actions :| Stops(jobs, Ceiling(option), concurrency, actions) {
      if option.None? { NeverStops(start, actions); }
      if start.workers == [] { NoWorkerNoRun(start, actions); }
    }
  }

  lemma StoppedByOne(p: Pool, dear: nat)
    requires p.ceiling.Some? && dear >= p.ceiling.value && p.jobs > 0 && p.cursor == 0
    requires p.workers != [] && p.workers[0].Ready?
    ensures OverCeiling(p) ==> Runs(p, [Start(0)]) && After(p, [Start(0)]).stopped
    ensures !OverCeiling(p) ==> Runs(p, [Start(0), Finish(0, dear)]) && After(p, [Start(0), Finish(0, dear)]).stopped
  {
    var one, two := [Start(0)], [Start(0), Finish(0, dear)];
    assert one[1..] == [] && two[1..] == [Finish(0, dear)] && [Finish(0, dear)][1..] == [];
    var p1 := Step(p, Start(0));
    assert Runs(p1, []) && After(p1, []) == p1;
    if !OverCeiling(p) {
      var p2 := Step(p1, Finish(0, dear));
      assert Runs(p2, []) && After(p2, []) == p2;
      assert Runs(p1, [Finish(0, dear)]) && After(p1, [Finish(0, dear)]) == p2;
    }
  }

  lemma MoreTimes(k: nat, n: nat, top: nat)
    requires k <= n
    ensures k * top <= n * top
  {
  }
}
