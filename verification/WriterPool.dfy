/**
  The live mode of the cooking-scenario writer: workers share a queue, a count of started recipes, a stop
  flag and a report. A step is what one worker does between two awaits; actions interleave in any order.
*/
module WriterPool {
  import opened Counting
  import opened Options

  type Id = string

  /** Not yet started, waiting for a recipe's row, waiting for its scenario, or returned. */
  datatype Worker = Ready | Loading(id: Id) | Writing(id: Id) | Returned

  /**
    How the program was done with an id. The first four are report entries; `UpToDate` is only counted,
    `Silent` is a save that turned out a duplicate or superseded, `Dropped` was let go at the limit, and
    `Lost` had a load that threw, which is outside the worker's `try` and ends the worker.
  */
  datatype Status = NotFound | Saved | Failed | OutOfBudget | UpToDate | Silent | Dropped | Lost

  datatype Entry = Entry(id: Id, status: Status)

  datatype Loaded = Missing | Found(current: bool) | Thrown

  datatype Outcome = Stored | Superseded | Refused | BudgetExceeded

  /** `done` is the report together with the ids that leave no report entry, in order. */
  datatype Pool = Pool(
    skipWritten: bool,
    limit: Option<nat>,
    queue: seq<Id>,
    started: nat,
    stopped: bool,
    workers: seq<Worker>,
    done: seq<Entry>)

  datatype Action = Start(worker: nat) | Load(worker: nat, loaded: Loaded) | Finish(worker: nat, outcome: Outcome)

  /** A limit of zero is no limit. */
  predicate AtLimit(p: Pool)
  {
    p.limit.Some? && p.limit.value > 0 && p.started >= p.limit.value
  }

  /** The loop condition and the shift that follows it. */
  function TakeNext(p: Pool, w: nat): Pool
    requires w < |p.workers|
  {
    if p.queue != [] && !p.stopped
    then p.(queue := p.queue[1..], workers := p.workers[w := Loading(p.queue[0])])
    else p.(workers := p.workers[w := Returned])
  }

  /** The worker is done with its id and goes on. */
  function DoneWith(p: Pool, w: nat, status: Status): Pool
    requires w < |p.workers| && HasId(p.workers[w])
  {
    TakeNext(p.(done := p.done + [Entry(p.workers[w].id, status)], stopped := p.stopped || status.OutOfBudget?), w)
  }

  /** The worker is done with its id and ends. */
  function EndsWith(p: Pool, w: nat, status: Status): Pool
    requires w < |p.workers| && HasId(p.workers[w])
  {
    p.(done := p.done + [Entry(p.workers[w].id, status)],
       stopped := p.stopped || status.Dropped?,
       workers := p.workers[w := Returned])
  }

  predicate HasId(worker: Worker)
  {
    worker.Loading? || worker.Writing?
  }

  predicate Enabled(p: Pool, a: Action)
  {
    && a.worker < |p.workers|
    && (a.Start? ==> p.workers[a.worker].Ready?)
    && (a.Load? ==> p.workers[a.worker].Loading?)
    && (a.Finish? ==> p.workers[a.worker].Writing?)
  }

  function AfterLoad(p: Pool, w: nat, loaded: Loaded): Pool
    requires w < |p.workers| && p.workers[w].Loading?
  {
    match loaded
    case Thrown => EndsWith(p, w, Lost)
    case Missing => DoneWith(p, w, NotFound)
    case Found(current) =>
      if p.skipWritten && current then DoneWith(p, w, UpToDate)
      else if AtLimit(p) then EndsWith(p, w, Dropped)
      else p.(started := p.started + 1, workers := p.workers[w := Writing(p.workers[w].id)])
  }

  function WrittenAs(outcome: Outcome): Status
  {
    match outcome
    case Stored => Saved
    case Superseded => Silent
    case Refused => Failed
    case BudgetExceeded => OutOfBudget
  }

  function Step(p: Pool, a: Action): Pool
    requires Enabled(p, a)
  {
    match a
    case Start(w) => TakeNext(p, w)
    case Load(w, loaded) => AfterLoad(p, w, loaded)
    case Finish(w, outcome) => DoneWith(p, w, WrittenAs(outcome))
  }

  function Initial(ids: seq<Id>, skipWritten: bool, limit: Option<nat>, concurrency: nat): Pool
  {
    var n := if concurrency < |ids| then concurrency else |ids|;
    Pool(skipWritten, limit, ids, 0, false, seq(n, _ => Ready), [])
  }

  predicate Runs(p: Pool, actions: seq<Action>)
    decreases |actions|
  {
    actions == [] || (Enabled(p, actions[0]) && Runs(Step(p, actions[0]), actions[1..]))
  }

  function After(p: Pool, actions: seq<Action>): Pool
    requires Runs(p, actions)
    decreases |actions|
  {
    if actions == [] then p else After(Step(p, actions[0]), actions[1..])
  }

  /** What every step keeps holds after every run. */
  lemma {:induction false} AlwaysHolds(p: Pool, actions: seq<Action>, inv: Pool -> bool)
    requires Runs(p, actions) && inv(p)
    requires forall q: Pool, a: Action :: Enabled(q, a) && inv(q) ==> inv(Step(q, a))
    ensures inv(After(p, actions))
    decreases |actions|
  {
    if actions != [] {
      assert Enabled(p, actions[0]);
      AlwaysHolds(Step(p, actions[0]), actions[1..], inv);
    }
  }

  // ----- every id is in exactly one place -----

  function DoneTimes(done: seq<Entry>, id: Id): nat
  {
    if done == [] then 0 else DoneTimes(done[..|done| - 1], id) + One(done[|done| - 1].id == id)
  }

  predicate Holds(w: Worker, id: Id)
  {
    w == Loading(id) || w == Writing(id)
  }

  function Held(ws: seq<Worker>, id: Id): nat
  {
    if ws == [] then 0 else Held(ws[..|ws| - 1], id) + One(Holds(ws[|ws| - 1], id))
  }

  lemma {:induction false} HeldUpdate(ws: seq<Worker>, w: nat, to: Worker, id: Id)
    requires w < |ws|
    ensures Held(ws[w := to], id) + One(Holds(ws[w], id)) == Held(ws, id) + One(Holds(to, id))
  {
    var n := |ws| - 1;
    if w == n {
      assert ws[w := to][..n] == ws[..n];
    } else {
      assert ws[w := to][..n] == ws[..n][w := to];
      HeldUpdate(ws[..n], w, to, id);
    }
  }

  lemma {:induction false} NoneHeld(ws: seq<Worker>, id: Id)
    requires forall i | 0 <= i < |ws| :: ws[i].Ready? || ws[i].Returned?
    ensures Held(ws, id) == 0
  {
    if ws != [] { NoneHeld(ws[..|ws| - 1], id); }
  }

  /** How often an id occurs over all the places it can be in. */
  function Places(p: Pool, id: Id): nat
  {
    Times(p.queue, id) + Held(p.workers, id) + DoneTimes(p.done, id)
  }

  /** Taking the next id moves it from the queue to a worker that is done with its own. */
  lemma TakeMoves(p: Pool, w: nat, id: Id)
    requires w < |p.workers|
    ensures Places(TakeNext(p, w), id) + One(Holds(p.workers[w], id)) == Places(p, id)
  {
    HeldUpdate(p.workers, w, TakeNext(p, w).workers[w], id);
  }

  lemma DoneMoves(done: seq<Entry>, entry: Entry, id: Id)
    ensures DoneTimes(done + [entry], id) == DoneTimes(done, id) + One(entry.id == id)
  {
    assert (done + [entry])[..|done|] == done;
  }

  lemma DoneWithMoves(p: Pool, w: nat, status: Status, id: Id)
    requires w < |p.workers| && HasId(p.workers[w])
    ensures Places(DoneWith(p, w, status), id) == Places(p, id)
  {
    var entry := Entry(p.workers[w].id, status);
    var q := p.(done := p.done + [entry], stopped := p.stopped || status.OutOfBudget?);
    assert Places(q, id) == Places(p, id) + One(entry.id == id) by { DoneMoves(p.done, entry, id); }
    TakeMoves(q, w, id);
  }

  lemma EndsWithMoves(p: Pool, w: nat, status: Status, id: Id)
    requires w < |p.workers| && HasId(p.workers[w])
    ensures Places(EndsWith(p, w, status), id) == Places(p, id)
  {
    HeldUpdate(p.workers, w, Returned, id);
    DoneMoves(p.done, Entry(p.workers[w].id, status), id);
  }

  lemma WritingMoves(p: Pool, w: nat, id: Id)
    requires w < |p.workers| && p.workers[w].Loading?
    ensures Places(p.(started := p.started + 1, workers := p.workers[w := Writing(p.workers[w].id)]), id) == Places(p, id)
  {
    HeldUpdate(p.workers, w, Writing(p.workers[w].id), id);
  }

  lemma LoadMoves(p: Pool, w: nat, loaded: Loaded, id: Id)
    requires w < |p.workers| && p.workers[w].Loading?
    ensures Places(AfterLoad(p, w, loaded), id) == Places(p, id)
  {
    match loaded
    case Thrown => EndsWithMoves(p, w, Lost, id);
    case Missing => DoneWithMoves(p, w, NotFound, id);
    case Found(current) =>
      if p.skipWritten && current {
        DoneWithMoves(p, w, UpToDate, id);
      } else if AtLimit(p) {
        EndsWithMoves(p, w, Dropped, id);
      } else {
        WritingMoves(p, w, id);
      }
  }

  lemma StepMoves(p: Pool, a: Action, id: Id)
    requires Enabled(p, a)
    ensures Places(Step(p, a), id) == Places(p, id)
  {
    match a
    case Start(w) => TakeMoves(p, w, id);
    case Load(w, loaded) => LoadMoves(p, w, loaded, id);
    case Finish(w, outcome) => DoneWithMoves(p, w, WrittenAs(outcome), id);
  }

  /**
    In every interleaving, at every moment, an id is in as many places as it has occurrences in the list,
    so with distinct ids in exactly one: the queue, a worker, or done with.
  */
  lemma EveryIdInOnePlace(ids: seq<Id>, skipWritten: bool, limit: Option<nat>, concurrency: nat,
                          actions: seq<Action>, id: Id)
    requires Runs(Initial(ids, skipWritten, limit, concurrency), actions)
    ensures Places(After(Initial(ids, skipWritten, limit, concurrency), actions), id) == Times(ids, id)
  {
    var start := Initial(ids, skipWritten, limit, concurrency);
    NoneHeld(start.workers, id);
    forall q: Pool, a: Action | Enabled(q, a) ensures Places(Step(q, a), id) == Places(q, id) {
      StepMoves(q, a, id);
    }
    AlwaysHolds(start, actions, (q: Pool) => Places(q, id) == Times(ids, id));
  }

  // ----- the limit -----

  function WritingCount(ws: seq<Worker>): nat
  {
    if ws == [] then 0 else WritingCount(ws[..|ws| - 1]) + One(ws[|ws| - 1].Writing?)
  }

  function ReturnedCount(ws: seq<Worker>): nat
  {
    if ws == [] then 0 else ReturnedCount(ws[..|ws| - 1]) + One(ws[|ws| - 1].Returned?)
  }

  /** The ids for which writing was started and is over. */
  function WrittenCount(done: seq<Entry>): nat
  {
    if done == [] then 0 else WrittenCount(done[..|done| - 1]) + One(Written(done[|done| - 1].status))
  }

  predicate Written(status: Status)
  {
    status.Saved? || status.Failed? || status.OutOfBudget? || status.Silent?
  }

  /** The ids with which a worker ended. */
  function EndCount(done: seq<Entry>): nat
  {
    if done == [] then 0 else EndCount(done[..|done| - 1]) + One(Ending(done[|done| - 1].status))
  }

  predicate Ending(status: Status)
  {
    status.Dropped? || status.Lost?
  }

  predicate Has(done: seq<Entry>, status: Status)
  {
    exists i | 0 <= i < |done| :: done[i].status == status
  }

  lemma {:induction false} CountsUpdate(ws: seq<Worker>, w: nat, to: Worker)
    requires w < |ws|
    ensures WritingCount(ws[w := to]) + One(ws[w].Writing?) == WritingCount(ws) + One(to.Writing?)
    ensures ReturnedCount(ws[w := to]) + One(ws[w].Returned?) == ReturnedCount(ws) + One(to.Returned?)
  {
    var n := |ws| - 1;
    if w == n {
      assert ws[w := to][..n] == ws[..n];
    } else {
      assert ws[w := to][..n] == ws[..n][w := to];
      CountsUpdate(ws[..n], w, to);
    }
  }

  lemma {:induction false} ReadyCounts(ws: seq<Worker>)
    requires forall i | 0 <= i < |ws| :: ws[i].Ready?
    ensures WritingCount(ws) == 0 && ReturnedCount(ws) == 0
  {
    if ws != [] { ReadyCounts(ws[..|ws| - 1]); }
  }

  lemma {:induction false} ReturnedAtMost(ws: seq<Worker>)
    ensures ReturnedCount(ws) <= |ws|
  {
    if ws != [] { ReturnedAtMost(ws[..|ws| - 1]); }
  }

  lemma DoneGrows(done: seq<Entry>, entry: Entry)
    ensures WrittenCount(done + [entry]) == WrittenCount(done) + One(Written(entry.status))
    ensures EndCount(done + [entry]) == EndCount(done) + One(Ending(entry.status))
    ensures forall status :: Has(done + [entry], status) <==> Has(done, status) || entry.status == status
  {
    var longer := done + [entry];
    assert longer[..|done|] == done;
    forall status ensures Has(longer, status) <==> Has(done, status) || entry.status == status {
      if Has(done, status) {
        var i :| 0 <= i < |done| && done[i].status == status;
        assert longer[i].status == status;
      }
      if entry.status == status { assert longer[|done|].status == status; }
    }
  }

  predicate WithinLimit(p: Pool)
  {
    p.limit.Some? && p.limit.value > 0 ==> p.started <= p.limit.value
  }

  /**
    `started` counts the recipes being written and those written and stays within the limit; an id is let go
    only at the limit, and its worker ends; the flag is up exactly for the two reasons there are; a worker
    that ended in any other way saw the flag or an empty queue.
  */
  ghost predicate Sound(p: Pool)
  {
    && p.started == WritingCount(p.workers) + WrittenCount(p.done)
    && WithinLimit(p)
    && (Has(p.done, Dropped) ==> AtLimit(p))
    && EndCount(p.done) <= ReturnedCount(p.workers)
    && (p.stopped <==> Has(p.done, Dropped) || Has(p.done, OutOfBudget))
    && (ReturnedCount(p.workers) > EndCount(p.done) ==> p.stopped || p.queue == [])
  }

  lemma DoneKeepsSound(p: Pool, w: nat, status: Status)
    requires w < |p.workers| && HasId(p.workers[w]) && Sound(p)
    requires !Ending(status) && (p.workers[w].Writing? <==> Written(status))
    ensures Sound(DoneWith(p, w, status))
  {
    CountsUpdate(p.workers, w, DoneWith(p, w, status).workers[w]);
    DoneGrows(p.done, Entry(p.workers[w].id, status));
  }

  lemma EndKeepsSound(p: Pool, w: nat, status: Status)
    requires w < |p.workers| && p.workers[w].Loading? && Sound(p)
    requires status.Lost? || (status.Dropped? && AtLimit(p))
    ensures Sound(EndsWith(p, w, status))
  {
    CountsUpdate(p.workers, w, Returned);
    DoneGrows(p.done, Entry(p.workers[w].id, status));
  }

  lemma WriteKeepsSound(p: Pool, w: nat, id: Id)
    requires w < |p.workers| && p.workers[w].Loading? && Sound(p) && !AtLimit(p)
    ensures Sound(p.(started := p.started + 1, workers := p.workers[w := Writing(id)]))
  {
    CountsUpdate(p.workers, w, Writing(id));
  }

  lemma LoadKeepsSound(p: Pool, w: nat, loaded: Loaded)
    requires w < |p.workers| && p.workers[w].Loading? && Sound(p)
    ensures Sound(AfterLoad(p, w, loaded))
  {
    DoneKeepsSound(p, w, NotFound);
    DoneKeepsSound(p, w, UpToDate);
    EndKeepsSound(p, w, Lost);
    if AtLimit(p) {
      EndKeepsSound(p, w, Dropped);
    } else {
      WriteKeepsSound(p, w, p.workers[w].id);
    }
  }

  lemma StepKeepsSound(p: Pool, a: Action)
    requires Enabled(p, a) && Sound(p)
    ensures Sound(Step(p, a))
  {
    match a
    case Start(w) => CountsUpdate(p.workers, w, TakeNext(p, w).workers[w]);
    case Load(w, loaded) => LoadKeepsSound(p, w, loaded);
    case Finish(w, outcome) => DoneKeepsSound(p, w, WrittenAs(outcome));
  }

  lemma StepShape(p: Pool, a: Action)
    requires Enabled(p, a)
    ensures |Step(p, a).workers| == |p.workers| && Step(p, a).limit == p.limit && |Step(p, a).queue| <= |p.queue|
  {
  }

  lemma AlwaysSound(ids: seq<Id>, skipWritten: bool, limit: Option<nat>, concurrency: nat, actions: seq<Action>)
    requires Runs(Initial(ids, skipWritten, limit, concurrency), actions)
    ensures var start := Initial(ids, skipWritten, limit, concurrency); var p := After(start, actions);
      Sound(p) && |p.workers| == |start.workers| && p.limit == limit && |p.queue| <= |ids|
  {
    var start := Initial(ids, skipWritten, limit, concurrency);
    ReadyCounts(start.workers);
    var n := |start.workers|;
    var inv := (q: Pool) => Sound(q) && |q.workers| == n && q.limit == limit && |q.queue| <= |ids|;
    forall q: Pool, a: Action | Enabled(q, a) && inv(q) ensures inv(Step(q, a)) {
      StepKeepsSound(q, a);
      StepShape(q, a);
    }
    AlwaysHolds(start, actions, inv);
  }

  /**
    In every interleaving at most `limit` recipes are ever written, counting those in flight; an id is let go
    only when exactly that many were started, and at most one for each worker.
  */
  lemma NeverMoreThanLimit(ids: seq<Id>, skipWritten: bool, limit: nat, concurrency: nat, actions: seq<Action>)
    requires limit > 0 && Runs(Initial(ids, skipWritten, Some(limit), concurrency), actions)
    ensures var p := After(Initial(ids, skipWritten, Some(limit), concurrency), actions);
      && p.started == WritingCount(p.workers) + WrittenCount(p.done) <= limit
      && (Has(p.done, Dropped) ==> p.started == limit)
      && EndCount(p.done) <= concurrency
  {
    AlwaysSound(ids, skipWritten, Some(limit), concurrency, actions);
    ReturnedAtMost(After(Initial(ids, skipWritten, Some(limit), concurrency), actions).workers);
  }

  // ----- options that are rounded down -----

  /** `--limit` and `--concurrency` are checked to be positive, then rounded down. */
  function Rounded(option: real): (n: nat)
    requires option > 0.0
    ensures n as real <= option < n as real + 1.0
    ensures n == 0 <==> option < 1.0
  {
    option.Floor
  }

  lemma NoWorkersNoRun(ids: seq<Id>, skipWritten: bool, limit: Option<nat>, concurrency: nat, actions: seq<Action>)
    requires (ids == [] || concurrency == 0) && Runs(Initial(ids, skipWritten, limit, concurrency), actions)
    ensures actions == []
  {
    assert Initial(ids, skipWritten, limit, concurrency).workers == [];
  }

  /** The shortest run that starts a recipe. */
  lemma OneStarts(ids: seq<Id>, skipWritten: bool, concurrency: nat)
    requires ids != [] && concurrency > 0
    ensures var start, actions := Initial(ids, skipWritten, Some(0), concurrency), [Start(0), Load(0, Found(false))];
      Runs(start, actions) && After(start, actions).started == 1
  {
    var start, actions := Initial(ids, skipWritten, Some(0), concurrency), [Start(0), Load(0, Found(false))];
    var one := Step(start, actions[0]);
    assert one.workers[0] == Loading(ids[0]);
    assert actions[1..] == [actions[1]] && [actions[1]][1..] == [];
    assert Runs(Step(one, actions[1]), []);
    assert Runs(one, [actions[1]]);
    assert After(one, [actions[1]]) == Step(one, actions[1]);
  }

  ghost predicate StartsAtMost(ids: seq<Id>, skipWritten: bool, option: real, concurrency: nat)
    requires option > 0.0
  {
    forall actions | Runs(Initial(ids, skipWritten, Some(Rounded(option)), concurrency), actions) ::
      After(Initial(ids, skipWritten, Some(Rounded(option)), concurrency), actions).started as real <= option
  }

  /**
    The limit given is kept by every run exactly when it is at least one, or nothing can be started at all:
    a fraction below one becomes zero, and zero is no limit.
  */
  lemma LimitKeptExactlyWhen(ids: seq<Id>, skipWritten: bool, option: real, concurrency: nat)
    requires option > 0.0
    ensures StartsAtMost(ids, skipWritten, option, concurrency) <==> option >= 1.0 || ids == [] || concurrency == 0
  {
    var start := Initial(ids, skipWritten, Some(Rounded(option)), concurrency);
    if option >= 1.0 || ids == [] || concurrency == 0 {
      forall actions | Runs(start, actions) ensures After(start, actions).started as real <= option {
        if option >= 1.0 {
          NeverMoreThanLimit(ids, skipWritten, Rounded(option), concurrency, actions);
        } else {
          NoWorkersNoRun(ids, skipWritten, Some(Rounded(option)), concurrency, actions);
        }
      }
    } else {
      OneStarts(ids, skipWritten, concurrency);
      var actions := [Start(0), Load(0, Found(false))];
      assert Runs(start, actions) && After(start, actions).started as real > option;
    }
  }

  // ----- how many recipes are under way at once -----

  /** The workers that have a recipe. */
  function Busy(p: Pool): set<nat>
  {
    set w: nat | w < |p.workers| && HasId(p.workers[w])
  }

  /** The next `n` workers are started. */
  function Starts(from: nat, n: nat): seq<Action>
    decreases n
  {
    if n == 0 then [] else [Start(from)] + Starts(from + 1, n - 1)
  }

  /** The first workers have been started, and a recipe is left for each of the others. */
  predicate Opened(p: Pool, k: nat)
  {
    && !p.stopped && k <= |p.workers| <= k + |p.queue|
    && forall w | 0 <= w < |p.workers| :: if w < k then HasId(p.workers[w]) else p.workers[w].Ready?
  }

  lemma {:induction false} StartsOpen(p: Pool, from: nat, n: nat)
    requires Opened(p, from) && from + n <= |p.workers|
    ensures Runs(p, Starts(from, n)) && Opened(After(p, Starts(from, n)), from + n)
    decreases n
  {
    if n > 0 {
      var q := Step(p, Start(from));
      assert Starts(from, n)[0] == Start(from) && Starts(from, n)[1..] == Starts(from + 1, n - 1);
      assert Opened(q, from + 1);
      StartsOpen(q, from + 1, n - 1);
    }
  }

  lemma {:induction false} WorkersStay(p: Pool, actions: seq<Action>)
    requires Runs(p, actions)
    ensures |After(p, actions).workers| == |p.workers|
    decreases |actions|
  {
    if actions != [] {
      StepShape(p, actions[0]);
      WorkersStay(Step(p, actions[0]), actions[1..]);
    }
  }

  ghost predicate Reaches(ids: seq<Id>, skipWritten: bool, limit: Option<nat>, option: real, k: nat, actions: seq<Action>)
    requires option > 0.0
  {
    && Runs(Initial(ids, skipWritten, limit, Rounded(option)), actions)
    && |Busy(After(Initial(ids, skipWritten, limit, Rounded(option)), actions))| == k
  }

  /** So many recipes can be under way at once: no more than there are, nor than the number given. */
  lemma AtOnceExactly(ids: seq<Id>, skipWritten: bool, limit: Option<nat>, option: real, k: nat)
    requires option > 0.0
    ensures (exists actions :: Reaches(ids, skipWritten, limit, option, k, actions)) <==> k <= |ids| && k as real <= option
  {
    var start := Initial(ids, skipWritten, limit, Rounded(option));
    if k <= |start.workers| {
      StartsOpen(start, 0, k);
      WorkersStay(start, Starts(0, k));
      assert Busy(After(start, Starts(0, k))) == Below(k);
      assert Reaches(ids, skipWritten, limit, option, k, Starts(0, k));
    }
    if actions :| Reaches(ids, skipWritten, limit, option, k, actions) {
      WorkersStay(start, actions);
      FewerThan(Busy(After(start, actions)), |start.workers|);
    }
  }

  // ----- what becomes of an id -----

  /** The action that ends with this entry; what is let go depends on the state too. */
  predicate Ends(a: Action, skipWritten: bool, status: Status)
  {
    match status
    case Saved => a.Finish? && a.outcome.Stored?
    case Silent => a.Finish? && a.outcome.Superseded?
    case Failed => a.Finish? && a.outcome.Refused?
    case OutOfBudget => a.Finish? && a.outcome.BudgetExceeded?
    case NotFound => a.Load? && a.loaded.Missing?
    case Lost => a.Load? && a.loaded.Thrown?
    case UpToDate => a.Load? && a.loaded.Found? && a.loaded.current && skipWritten
    case Dropped => false
  }

  function Ended(actions: seq<Action>, skipWritten: bool, status: Status): nat
  {
    if actions == [] then 0 else One(Ends(actions[0], skipWritten, status)) + Ended(actions[1..], skipWritten, status)
  }

  function StatusCount(done: seq<Entry>, status: Status): nat
  {
    if done == [] then 0 else StatusCount(done[..|done| - 1], status) + One(done[|done| - 1].status == status)
  }

  lemma StatusMore(done: seq<Entry>, entry: Entry, status: Status)
    ensures StatusCount(done + [entry], status) == StatusCount(done, status) + One(entry.status == status)
  {
    assert (done + [entry])[..|done|] == done;
  }

  lemma DoneStatus(p: Pool, w: nat, with: Status, status: Status)
    requires w < |p.workers| && HasId(p.workers[w])
    ensures StatusCount(DoneWith(p, w, with).done, status) == StatusCount(p.done, status) + One(with == status)
    ensures StatusCount(EndsWith(p, w, with).done, status) == StatusCount(p.done, status) + One(with == status)
  {
    StatusMore(p.done, Entry(p.workers[w].id, with), status);
  }

  lemma FoundStatus(p: Pool, w: nat, current: bool, status: Status)
    requires w < |p.workers| && p.workers[w].Loading? && !status.Dropped?
    ensures StatusCount(AfterLoad(p, w, Found(current)).done, status)
            == StatusCount(p.done, status) + One(Ends(Load(w, Found(current)), p.skipWritten, status))
  {
    DoneStatus(p, w, if p.skipWritten && current then UpToDate else Dropped, status);
  }

  lemma ThrownStatus(p: Pool, w: nat, status: Status)
    requires w < |p.workers| && p.workers[w].Loading? && !status.Dropped?
    ensures StatusCount(AfterLoad(p, w, Thrown).done, status)
            == StatusCount(p.done, status) + One(Ends(Load(w, Thrown), p.skipWritten, status))
  {
    DoneStatus(p, w, Lost, status);
  }

  lemma MissingStatus(p: Pool, w: nat, status: Status)
    requires w < |p.workers| && p.workers[w].Loading? && !status.Dropped?
    ensures StatusCount(AfterLoad(p, w, Missing).done, status)
            == StatusCount(p.done, status) + One(Ends(Load(w, Missing), p.skipWritten, status))
  {
    DoneStatus(p, w, NotFound, status);
  }

  lemma LoadStatus(p: Pool, w: nat, loaded: Loaded, status: Status)
    requires w < |p.workers| && p.workers[w].Loading? && !status.Dropped?
    ensures StatusCount(AfterLoad(p, w, loaded).done, status)
            == StatusCount(p.done, status) + One(Ends(Load(w, loaded), p.skipWritten, status))
  {
    match loaded
    case Thrown => ThrownStatus(p, w, status);
    case Missing => MissingStatus(p, w, status);
    case Found(current) => FoundStatus(p, w, current, status);
  }

  lemma StepStatus(p: Pool, a: Action, status: Status)
    requires Enabled(p, a) && !status.Dropped?
    ensures StatusCount(Step(p, a).done, status) == StatusCount(p.done, status) + One(Ends(a, p.skipWritten, status))
    ensures Step(p, a).skipWritten == p.skipWritten
  {
    match a
    case Start(w) =>
    case Load(w, loaded) => LoadStatus(p, w, loaded, status);
    case Finish(w, outcome) =>
      DoneStatus(p, w, WrittenAs(outcome), status);
      WrittenEnds(w, outcome, p.skipWritten, status);
  }

  lemma WrittenEnds(w: nat, outcome: Outcome, skipWritten: bool, status: Status)
    ensures WrittenAs(outcome) == status <==> Ends(Finish(w, outcome), skipWritten, status)
  {
  }

  /** Every entry has its reason: as many of each kind as there were loads and writes that ended in this way. */
  lemma {:induction false} EntriesExactly(p: Pool, actions: seq<Action>, status: Status)
    requires Runs(p, actions) && !status.Dropped?
    ensures StatusCount(After(p, actions).done, status) == StatusCount(p.done, status) + Ended(actions, p.skipWritten, status)
    decreases |actions|
  {
    if actions != [] {
      StepStatus(p, actions[0], status);
      EntriesExactly(Step(p, actions[0]), actions[1..], status);
    }
  }

  // ----- a finished run -----

  predicate AllReturned(p: Pool)
  {
    forall i | 0 <= i < |p.workers| :: p.workers[i].Returned?
  }

  lemma {:induction false} AllReturnedCount(ws: seq<Worker>)
    requires forall i | 0 <= i < |ws| :: ws[i].Returned?
    ensures ReturnedCount(ws) == |ws|
  {
    if ws != [] { AllReturnedCount(ws[..|ws| - 1]); }
  }

  lemma {:induction false} NoneEnded(done: seq<Entry>)
    requires !Has(done, Dropped) && !Has(done, Lost)
    ensures EndCount(done) == 0
  {
    if done != [] {
      var shorter := done[..|done| - 1];
      assert !Ending(done[|done| - 1].status);
      assert forall i | 0 <= i < |shorter| :: shorter[i] == done[i];
      NoneEnded(shorter);
    }
  }

  /**
    A finished run accounts for every id: it is done with or still queued. It was stopped exactly when an id
    was let go at the limit or the budget was exceeded; unstopped and with no throwing load, every id is done
    if there was a worker, and every id is still queued if there was none.
  */
  lemma FinishedRunAccounts(ids: seq<Id>, skipWritten: bool, limit: Option<nat>, concurrency: nat,
                            actions: seq<Action>, id: Id)
    requires Runs(Initial(ids, skipWritten, limit, concurrency), actions)
    requires AllReturned(After(Initial(ids, skipWritten, limit, concurrency), actions))
    ensures var p := After(Initial(ids, skipWritten, limit, concurrency), actions);
      && DoneTimes(p.done, id) + Times(p.queue, id) == Times(ids, id)
      && (p.stopped <==> Has(p.done, Dropped) || Has(p.done, OutOfBudget))
      && (!p.stopped && !Has(p.done, Lost) ==> p.queue == if concurrency > 0 then [] else ids)
  {
    var p := After(Initial(ids, skipWritten, limit, concurrency), actions);
    AlwaysSound(ids, skipWritten, limit, concurrency, actions);
    EveryIdInOnePlace(ids, skipWritten, limit, concurrency, actions, id);
    NoneHeld(p.workers, id);
    AllReturnedCount(p.workers);
    if concurrency == 0 {
      NoWorkersNoRun(ids, skipWritten, limit, concurrency, actions);
    } else if !p.stopped && !Has(p.done, Lost) {
      NoneEnded(p.done);
    }
  }

  /** A run that ended, was not stopped and lost nothing to a throwing load. */
  ghost predicate EndsWell(ids: seq<Id>, skipWritten: bool, limit: Option<nat>, concurrency: nat, actions: seq<Action>)
  {
    && Runs(Initial(ids, skipWritten, limit, concurrency), actions)
    && var p := After(Initial(ids, skipWritten, limit, concurrency), actions);
       AllReturned(p) && !p.stopped && !Has(p.done, Lost)
  }

  /** Every run that ends well is done with every id, as often as it is listed. */
  ghost predicate DoesAll(ids: seq<Id>, skipWritten: bool, limit: Option<nat>, concurrency: nat)
  {
    forall actions, id | EndsWell(ids, skipWritten, limit, concurrency, actions) ::
      DoneTimes(After(Initial(ids, skipWritten, limit, concurrency), actions).done, id) == Times(ids, id)
  }

  /** That is so exactly when the concurrency given is at least one, or the list is empty. */
  lemma AllDoneExactlyWhen(ids: seq<Id>, skipWritten: bool, limit: Option<nat>, option: real)
    requires option > 0.0
    ensures DoesAll(ids, skipWritten, limit, Rounded(option)) <==> option >= 1.0 || ids == []
  {
    var n := Rounded(option);
    if option >= 1.0 || ids == [] {
      forall actions, id | EndsWell(ids, skipWritten, limit, n, actions)
        ensures DoneTimes(After(Initial(ids, skipWritten, limit, n), actions).done, id) == Times(ids, id)
      {
        FinishedRunAccounts(ids, skipWritten, limit, n, actions, id);
      }
    } else {
      assert After(Initial(ids, skipWritten, limit, n), []) == Initial(ids, skipWritten, limit, n);
      assert EndsWell(ids, skipWritten, limit, n, []);
      assert DoneTimes([], ids[0]) == 0 < Times(ids, ids[0]);
    }
  }
}
