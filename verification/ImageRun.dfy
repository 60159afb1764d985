/**
  The resumable image run: workers share a queue and a stop reason, and after every recipe the whole state
  file is rewritten. A run may be cut at any moment; the next one starts from the file.
*/
module ImageRun {
  import opened Counting
  import opened Options

  /** The loop ends on an empty id, so ids are taken to be non-empty. */
  type Id = s: string | s != "" witness "a"

  type Key = string

  /** A recipe's stored state; a failed retry marks a good picture but does not replace it. */
  datatype Picture = Done(key: Key, retryFailed: bool) | Failed

  type State = map<Id, Picture>

  datatype Worker = Ready | Making(id: Id) | Returned

  /** How processing ended: a picture, a failed check or an error, or the provider refusing for lack of credit. */
  datatype Result = Made(key: Key) | Rejected | OutOfCredits

  datatype Attempt = Attempt(id: Id, result: Result)

  /** `lost` lists the ids taken from the queue and given up by the stop, `done` the finished attempts. */
  datatype Run = Run(
    queue: seq<Id>,
    stopped: bool,
    workers: seq<Worker>,
    memory: State,
    disk: State,
    done: seq<Attempt>,
    lost: seq<Id>)

  /** `concurrency` is absent when the option's text is no number. */
  datatype Args = Args(dishes: set<Id>, wanted: seq<Id>, approved: set<Id>, force: bool, concurrency: Option<real>)

  /** Starting the program again is an action like any other: it may come at any moment. */
  datatype Action = Launch(args: Args) | Start(worker: nat) | Finish(worker: nat, result: Result)

  predicate IsOk(state: State, id: Id)
  {
    id in state && state[id].Done?
  }

  predicate ToDo(state: State, args: Args, id: Id)
  {
    id in args.approved || args.force || !IsOk(state, id)
  }

  function Selected(state: State, args: Args, wanted: seq<Id>): seq<Id>
  {
    if wanted == [] then []
    else (if ToDo(state, args, wanted[0]) then [wanted[0]] else []) + Selected(state, args, wanted[1..])
  }

  predicate Accepted(args: Args)
  {
    args.wanted != [] && forall i | 0 <= i < |args.wanted| :: args.wanted[i] in args.dishes
  }

  /** At least one, rounded down; none for a text that is no number. */
  function Workers(args: Args): nat
  {
    if args.concurrency.None? then 0 else if args.concurrency.value < 1.0 then 1 else args.concurrency.value.Floor
  }

  /** A list that is empty or has an unknown id ends the program before anything is taken. */
  function Launched(disk: State, args: Args): Run
  {
    if Accepted(args) then
      Run(Selected(disk, args, args.wanted), false, seq(Workers(args), _ => Ready), disk, disk, [], [])
    else Run([], false, [], disk, disk, [], [])
  }

  /** The loop's step: the next id is shifted before the stop reason is looked at. */
  function TakeNext(r: Run, w: nat): Run
    requires w < |r.workers|
  {
    if r.queue == [] then r.(workers := r.workers[w := Returned])
    else if r.stopped then r.(queue := r.queue[1..], lost := r.lost + [r.queue[0]], workers := r.workers[w := Returned])
    else r.(queue := r.queue[1..], workers := r.workers[w := Making(r.queue[0])])
  }

  function Merged(state: State, id: Id, result: Result): Picture
    requires !result.OutOfCredits?
  {
    if result.Made? then Done(result.key, false)
    else if IsOk(state, id) then Done(state[id].key, true)
    else Failed
  }

  predicate Enabled(r: Run, a: Action)
  {
    match a
    case Launch(_) => true
    case Start(w) => w < |r.workers| && r.workers[w].Ready?
    case Finish(w, _) => w < |r.workers| && r.workers[w].Making?
  }

  function Stored(r: Run, w: nat, result: Result): Run
    requires w < |r.workers| && r.workers[w].Making? && !result.OutOfCredits?
  {
    var id := r.workers[w].id;
    var memory := r.memory[id := Merged(r.memory, id, result)];
    r.(memory := memory, disk := memory, done := r.done + [Attempt(id, result)])
  }

  function Finished(r: Run, w: nat, result: Result): Run
    requires w < |r.workers| && r.workers[w].Making?
  {
    if result.OutOfCredits?
    then r.(stopped := true, lost := r.lost + [r.workers[w].id], workers := r.workers[w := Returned])
    else TakeNext(Stored(r, w, result), w)
  }

  function Step(r: Run, a: Action): Run
    requires Enabled(r, a)
  {
    match a
    case Launch(args) => Launched(r.disk, args)
    case Start(w) => TakeNext(r, w)
    case Finish(w, result) => Finished(r, w, result)
  }

  predicate Runs(r: Run, actions: seq<Action>)
    decreases |actions|
  {
    actions == [] || (Enabled(r, actions[0]) && Runs(Step(r, actions[0]), actions[1..]))
  }

  function After(r: Run, actions: seq<Action>): Run
    requires Runs(r, actions)
    decreases |actions|
  {
    if actions == [] then r else After(Step(r, actions[0]), actions[1..])
  }

  /** What every step of some kind keeps holds after every run of such steps. */
  lemma {:induction false} AlwaysHolds(r: Run, actions: seq<Action>, kind: Action -> bool, inv: Run -> bool)
    requires Runs(r, actions) && inv(r)
    requires forall i | 0 <= i < |actions| :: kind(actions[i])
    requires forall q: Run, a: Action :: Enabled(q, a) && kind(a) && inv(q) ==> inv(Step(q, a))
    ensures inv(After(r, actions))
    decreases |actions|
  {
    if actions != [] {
      assert Enabled(r, actions[0]) && kind(actions[0]);
      AlwaysHolds(Step(r, actions[0]), actions[1..], kind, inv);
    }
  }

  // ----- a good picture is never lost -----

  /**
    Over any number of runs, each cut at any moment, with any interleaving and any options: what the file
    once held as `ok` it holds as `ok` ever after, and the memory of the running process is the file.
  */
  lemma OkStaysOk(r: Run, actions: seq<Action>, id: Id)
    requires Runs(r, actions) && r.memory == r.disk && IsOk(r.disk, id)
    ensures IsOk(After(r, actions).disk, id) && After(r, actions).memory == After(r, actions).disk
  {
    AlwaysHolds(r, actions, _ => true, (q: Run) => q.memory == q.disk && IsOk(q.disk, id));
  }

  // ----- without force, a key never changes -----

  predicate Holds(w: Worker, id: Id)
  {
    w == Making(id)
  }

  function Held(ws: seq<Worker>, id: Id): nat
  {
    if ws == [] then 0 else Held(ws[..|ws| - 1], id) + One(Holds(ws[|ws| - 1], id))
  }

  lemma {:induction false} HeldUpdate(ws: seq<Worker>, w: nat, to: Worker, id: Id)
    requires w < |ws|
    ensures Held(ws[w := to], id) + One(Holds(ws[w], id)) == Held(ws, id) + One(Holds(to, id))
  {
    var n := |ws| - 1;
    if w == n {
      assert ws[w := to][..n] == ws[..n];
    } else {
      assert ws[w := to][..n] == ws[..n][w := to];
      HeldUpdate(ws[..n], w, to, id);
    }
  }

  lemma {:induction false} NoneHeld(ws: seq<Worker>, id: Id)
    requires forall i | 0 <= i < |ws| :: !ws[i].Making?
    ensures Held(ws, id) == 0
  {
    if ws != [] { NoneHeld(ws[..|ws| - 1], id); }
  }

  // ----- after a stop -----

  predicate SameEntry(a: State, b: State, id: Id)
  {
    (id in a <==> id in b) && (id in a ==> a[id] == b[id])
  }

  lemma StoppedStepKeeps(r: Run, a: Action, id: Id)
    requires Enabled(r, a) && !a.Launch? && r.stopped && r.memory == r.disk && Held(r.workers, id) == 0
    ensures var q := Step(r, a);
      q.stopped && q.memory == q.disk && Held(q.workers, id) == 0 && SameEntry(r.disk, q.disk, id)
  {
    HeldUpdate(r.workers, a.worker, Returned, id);
  }

  /**
    Out of credit: from the moment of the stop to the end of the process, an id's entry in the file changes
    only if a worker was already making that id.
  */
  lemma StopFreezesTheRest(r: Run, w: nat, actions: seq<Action>, id: Id)
    requires w < |r.workers| && r.workers[w].Making? && r.memory == r.disk
    requires var stop := Step(r, Finish(w, OutOfCredits)); Held(stop.workers, id) == 0 && Runs(stop, actions)
    requires forall i | 0 <= i < |actions| :: !actions[i].Launch?
    ensures SameEntry(r.disk, After(Step(r, Finish(w, OutOfCredits)), actions).disk, id)
  {
    var stop := Step(r, Finish(w, OutOfCredits));
    var kind := (a: Action) => !a.Launch?;
    var inv := (q: Run) => q.stopped && q.memory == q.disk && Held(q.workers, id) == 0 && SameEntry(r.disk, q.disk, id);
    forall q: Run, a: Action | Enabled(q, a) && kind(a) && inv(q) ensures inv(Step(q, a)) {
      StoppedStepKeeps(q, a, id);
    }
    AlwaysHolds(stop, actions, kind, inv);
  }

  /** How many more times the running process may store a result for the id. */
  function Pending(r: Run, id: Id): nat
  {
    Times(r.queue, id) + Held(r.workers, id)
  }

  lemma {:induction false} SelectedTimes(state: State, args: Args, wanted: seq<Id>, id: Id)
    ensures Times(Selected(state, args, wanted), id) == if ToDo(state, args, id) then Times(wanted, id) else 0
  {
    if wanted != [] {
      var first := if ToDo(state, args, wanted[0]) then [wanted[0]] else [];
      TimesConcat(first, Selected(state, args, wanted[1..]), id);
      SelectedTimes(state, args, wanted[1..], id);
    }
  }

  lemma LaunchedPending(disk: State, args: Args, id: Id)
    ensures Pending(Launched(disk, args), id)
            == if Accepted(args) && ToDo(disk, args, id) then Times(args.wanted, id) else 0
  {
    SelectedTimes(disk, args, args.wanted, id);
    NoneHeld(Launched(disk, args).workers, id);
  }

  /** A worker going on never adds to what is pending. */
  lemma TakePending(r: Run, w: nat, id: Id)
    requires w < |r.workers|
    ensures Pending(TakeNext(r, w), id) + One(Holds(r.workers[w], id))
            == Pending(r, id) - (if r.stopped && r.queue != [] then One(r.queue[0] == id) else 0)
  {
    HeldUpdate(r.workers, w, TakeNext(r, w).workers[w], id);
  }

  lemma FinishPending(r: Run, w: nat, result: Result, id: Id)
    requires w < |r.workers| && r.workers[w].Making?
    ensures Pending(Finished(r, w, result), id) + One(Holds(r.workers[w], id)) <= Pending(r, id)
  {
    HeldUpdate(r.workers, w, Returned, id);
    if !result.OutOfCredits? { TakePending(Stored(r, w, result), w, id); }
  }

  /** Launched without force, without an approved picture for the id, and naming the id at most once. */
  predicate Gentle(a: Action, id: Id)
  {
    a.Launch? ==> !a.args.force && id !in a.args.approved && Times(a.args.wanted, id) <= 1
  }

  /** The id is pending at most once, and not at all once its picture is good. */
  ghost predicate Settled(r: Run, id: Id)
  {
    && r.memory == r.disk
    && Pending(r, id) <= 1
    && (IsOk(r.disk, id) ==> Pending(r, id) == 0)
  }

  lemma FinishKeepsSettled(r: Run, w: nat, result: Result, id: Id)
    requires w < |r.workers| && r.workers[w].Making? && Settled(r, id)
    ensures Settled(Finished(r, w, result), id)
    ensures IsOk(r.disk, id) ==> IsOk(Finished(r, w, result).disk, id) && Finished(r, w, result).disk[id] == r.disk[id]
  {
    FinishPending(r, w, result, id);
  }

  lemma StepKeepsSettled(r: Run, a: Action, id: Id)
    requires Enabled(r, a) && Gentle(a, id) && Settled(r, id)
    ensures Settled(Step(r, a), id)
    ensures IsOk(r.disk, id) ==> IsOk(Step(r, a).disk, id) && Step(r, a).disk[id] == r.disk[id]
  {
    match a
    case Launch(args) => LaunchedPending(r.disk, args, id);
    case Start(w) => TakePending(r, w, id);
    case Finish(w, result) => FinishKeepsSettled(r, w, result, id);
  }

  /** The program before its first start, with a state file left by earlier runs. */
  function Idle(disk: State): Run
  {
    Run([], false, [], disk, disk, [], [])
  }

  /**
    Without force, without an approved picture and with the id named at most once per run: from the moment
    its picture is good, its entry is never changed again, over any number of runs cut anywhere.
  */
  lemma KeyNeverChanges(disk: State, before: seq<Action>, later: seq<Action>, id: Id)
    requires Runs(Idle(disk), before) && Runs(After(Idle(disk), before), later)
    requires forall i | 0 <= i < |before| :: Gentle(before[i], id)
    requires forall i | 0 <= i < |later| :: Gentle(later[i], id)
    requires IsOk(After(Idle(disk), before).disk, id)
    ensures var middle := After(Idle(disk), before); var end := After(middle, later);
      IsOk(end.disk, id) && end.disk[id] == middle.disk[id]
  {
    var start, kind := Idle(disk), (a: Action) => Gentle(a, id);
    forall q: Run, a: Action | Enabled(q, a) && kind(a) && Settled(q, id)
      ensures Settled(Step(q, a), id)
      ensures IsOk(q.disk, id) ==> IsOk(Step(q, a).disk, id) && Step(q, a).disk[id] == q.disk[id]
    {
      StepKeepsSettled(q, a, id);
    }
    AlwaysHolds(start, before, kind, (q: Run) => Settled(q, id));
    var middle := After(start, before);
    var picture := middle.disk[id];
    AlwaysHolds(middle, later, kind, (q: Run) => Settled(q, id) && IsOk(q.disk, id) && q.disk[id] == picture);
  }

  // ----- what a process takes and what it leaves -----

  /** A start queues exactly the ids asked for whose picture is approved, forced or not there yet, if it is accepted. */
  lemma QueueExactly(disk: State, args: Args, id: Id)
    ensures Times(Launched(disk, args).queue, id) ==
            if args.wanted != [] && (forall i | 0 <= i < |args.wanted| :: args.wanted[i] in args.dishes)
               && (args.force || id in args.approved || id !in disk || disk[id].Failed?)
            then Times(args.wanted, id) else 0
  {
    SelectedTimes(disk, args, args.wanted, id);
  }

  /** The last good picture made of the id. */
  predicate LastMade(done: seq<Attempt>, id: Id, k: nat)
  {
    && k < |done| && done[k].id == id && done[k].result.Made?
    && forall j | k < j < |done| && done[j].id == id :: !done[j].result.Made?
  }

  predicate Tried(done: seq<Attempt>, id: Id, from: nat)
  {
    exists j | from <= j < |done| :: done[j].id == id
  }

  /**
    The file's entry after these attempts: the last good picture made, marked if a later attempt failed; without
    one, the good picture that was there, marked, or a failure; without an attempt, what was there.
  */
  ghost predicate FileSays(before: State, done: seq<Attempt>, id: Id, after: State)
  {
    && (forall k: nat | LastMade(done, id, k) ::
         id in after && after[id] == Done(done[k].result.key, Tried(done, id, k + 1)))
    && ((forall k: nat :: !LastMade(done, id, k)) && Tried(done, id, 0) ==>
         id in after && after[id] == if IsOk(before, id) then Done(before[id].key, true) else Failed)
    && (!Tried(done, id, 0) ==> SameEntry(before, after, id))
  }

  lemma TriedMore(done: seq<Attempt>, a: Attempt, id: Id, from: nat)
    ensures Tried(done + [a], id, from) <==> Tried(done, id, from) || (from <= |done| && a.id == id)
  {
    var more := done + [a];
    if j :| from <= j < |done| && done[j].id == id { assert more[j].id == id; }
    if from <= |done| && a.id == id { assert more[|done|].id == id; }
  }

  lemma LastMadeMore(done: seq<Attempt>, a: Attempt, id: Id, k: nat)
    ensures LastMade(done + [a], id, k) <==>
            if a.id == id && a.result.Made? then k == |done| else LastMade(done, id, k)
  {
    var more := done + [a];
    assert more[|done|] == a && forall j | 0 <= j < |done| :: more[j] == done[j];
  }

  lemma {:induction false} SomeLastMade(done: seq<Attempt>, id: Id, i: nat) returns (k: nat)
    requires i < |done| && done[i].id == id && done[i].result.Made?
    ensures LastMade(done, id, k)
    decreases |done| - i
  {
    if j :| i < j < |done| && done[j].id == id && done[j].result.Made? {
      k := SomeLastMade(done, id, j);
    } else {
      k := i;
    }
  }

  /** One more attempt, for each of the three clauses. */
  lemma MoreAttempts(done: seq<Attempt>, a: Attempt, id: Id)
    ensures forall k: nat :: LastMade(done + [a], id, k) <==>
              if a.id == id && a.result.Made? then k == |done| else LastMade(done, id, k)
    ensures forall k: nat :: Tried(done + [a], id, k) <==> Tried(done, id, k) || (k <= |done| && a.id == id)
  {
    forall k: nat { LastMadeMore(done, a, id, k); }
    forall k: nat { TriedMore(done, a, id, k); }
  }

  lemma OtherSays(before: State, done: seq<Attempt>, a: Attempt, id: Id, file: State, after: State)
    requires FileSays(before, done, id, file) && a.id != id && SameEntry(file, after, id)
    ensures FileSays(before, done + [a], id, after)
  {
    MoreAttempts(done, a, id);
    forall k: nat | LastMade(done + [a], id, k)
      ensures id in after && after[id] == Done((done + [a])[k].result.key, Tried(done + [a], id, k + 1))
    {
      assert LastMade(done, id, k);
    }
  }

  lemma MadeSays(before: State, done: seq<Attempt>, a: Attempt, id: Id, file: State)
    requires a.id == id && a.result.Made?
    ensures FileSays(before, done + [a], id, file[id := Done(a.result.key, false)])
  {
    MoreAttempts(done, a, id);
    assert LastMade(done + [a], id, |done|) && Tried(done + [a], id, 0);
    assert !Tried(done + [a], id, |done| + 1);
  }

  lemma FailedSays(before: State, done: seq<Attempt>, a: Attempt, id: Id, file: State)
    requires FileSays(before, done, id, file) && a.id == id && a.result.Rejected?
    ensures FileSays(before, done + [a], id, file[id := Merged(file, id, a.result)])
  {
    MoreAttempts(done, a, id);
    UnmadeSays(before, done, id, file);
    forall k: nat | LastMade(done + [a], id, k)
      ensures file[id := Merged(file, id, a.result)][id] == Done((done + [a])[k].result.key, Tried(done + [a], id, k + 1))
    {
      assert LastMade(done, id, k);
      assert Tried(done + [a], id, k + 1);
    }
  }

  /** The entry is good exactly when a picture was made, or was there. */
  lemma UnmadeSays(before: State, done: seq<Attempt>, id: Id, file: State)
    requires FileSays(before, done, id, file)
    ensures (forall k: nat :: !LastMade(done, id, k)) ==>
              (IsOk(file, id) <==> IsOk(before, id)) && (IsOk(before, id) ==> file[id].key == before[id].key)
  {
  }

  lemma StoredSays(before: State, r: Run, w: nat, result: Result, id: Id)
    requires w < |r.workers| && r.workers[w].Making? && !result.OutOfCredits? && r.memory == r.disk
    requires FileSays(before, r.done, id, r.disk)
    ensures FileSays(before, Stored(r, w, result).done, id, Stored(r, w, result).disk)
  {
    var a := Attempt(r.workers[w].id, result);
    if a.id != id {
      OtherSays(before, r.done, a, id, r.disk, Stored(r, w, result).disk);
    } else if result.Made? {
      MadeSays(before, r.done, a, id, r.disk);
    } else {
      FailedSays(before, r.done, a, id, r.disk);
    }
  }

  /** Over any run of a process, the file's entry for an id is exactly what its attempts say. */
  lemma FileExactly(disk: State, args: Args, actions: seq<Action>, id: Id)
    requires Runs(Launched(disk, args), actions) && forall i | 0 <= i < |actions| :: !actions[i].Launch?
    ensures var r := After(Launched(disk, args), actions); FileSays(disk, r.done, id, r.disk)
  {
    var kind, inv := (a: Action) => !a.Launch?, (q: Run) => q.memory == q.disk && FileSays(disk, q.done, id, q.disk);
    forall q: Run, a: Action | Enabled(q, a) && kind(a) && inv(q) ensures inv(Step(q, a)) {
      if a.Finish? && !a.result.OutOfCredits? { StoredSays(disk, q, a.worker, a.result, id); }
    }
    AlwaysHolds(Launched(disk, args), actions, kind, inv);
  }

  // ----- how many pictures are in the making at once -----

  /** The workers that make a picture. */
  function Busy(r: Run): set<nat>
  {
    set w: nat | w < |r.workers| && r.workers[w].Making?
  }

  /** The next `n` workers are started. */
  function Starts(from: nat, n: nat): seq<Action>
    decreases n
  {
    if n == 0 then [] else [Start(from)] + Starts(from + 1, n - 1)
  }

  /** The first workers have been started, and an id is left for each of the next. */
  predicate Opened(r: Run, k: nat, n: nat)
  {
    && !r.stopped && k + n <= |r.workers| && n <= |r.queue|
    && forall w | 0 <= w < |r.workers| :: if w < k then r.workers[w].Making? else r.workers[w].Ready?
  }

  lemma {:induction false} StartsOpen(r: Run, from: nat, n: nat)
    requires Opened(r, from, n)
    ensures Runs(r, Starts(from, n)) && Opened(After(r, Starts(from, n)), from + n, 0)
    decreases n
  {
    if n > 0 {
      var q := Step(r, Start(from));
      assert Starts(from, n)[0] == Start(from) && Starts(from, n)[1..] == Starts(from + 1, n - 1);
      assert Opened(q, from + 1, n - 1);
      StartsOpen(q, from + 1, n - 1);
    }
  }

  ghost predicate Reaches(disk: State, args: Args, k: nat, actions: seq<Action>)
  {
    && Runs(Launched(disk, args), actions) && (forall i | 0 <= i < |actions| :: !actions[i].Launch?)
    && |Busy(After(Launched(disk, args), actions))| == k
  }

  /** As many workers stay, and no more make a picture than ids have been taken. */
  ghost predicate Within(q: Run, workers: nat, queued: nat)
  {
    |q.workers| == workers && |Busy(q)| + |q.queue| <= queued
  }

  lemma TakeWithin(q: Run, w: nat, queued: nat)
    requires w < |q.workers| && |Busy(q) - {w}| + |q.queue| <= queued
    ensures Within(TakeNext(q, w), |q.workers|, queued)
  {
    BusyAfter(q, TakeNext(q, w), w);
  }

  /** Only one worker changed. */
  lemma BusyAfter(q: Run, n: Run, w: nat)
    requires w < |q.workers| && |n.workers| == |q.workers| && n.workers == q.workers[w := n.workers[w]]
    ensures Busy(n) == (Busy(q) - {w}) + if n.workers[w].Making? then {w} else {}
  {
  }

  lemma FinishWithin(q: Run, w: nat, result: Result, queued: nat)
    requires w < |q.workers| && q.workers[w].Making? && |Busy(q) - {w}| + |q.queue| <= queued
    ensures Within(Finished(q, w, result), |q.workers|, queued)
  {
    if result.OutOfCredits? {
      assert Busy(Finished(q, w, result)) == Busy(q) - {w};
    } else {
      assert Busy(Stored(q, w, result)) == Busy(q);
      TakeWithin(Stored(q, w, result), w, queued);
    }
  }

  lemma StepWithin(q: Run, a: Action, workers: nat, queued: nat)
    requires Enabled(q, a) && !a.Launch? && Within(q, workers, queued)
    ensures Within(Step(q, a), workers, queued)
  {
    assert |Busy(q) - {a.worker}| <= |Busy(q)| by {
      assert Busy(q) == (Busy(q) - {a.worker}) + (Busy(q) * {a.worker});
    }
    match a
    case Start(w) => TakeWithin(q, w, queued);
    case Finish(w, result) => FinishWithin(q, w, result, queued);
  }

  lemma RunWithin(r: Run, actions: seq<Action>)
    requires Runs(r, actions) && (forall i | 0 <= i < |actions| :: !actions[i].Launch?) && Busy(r) == {}
    ensures Within(After(r, actions), |r.workers|, |r.queue|)
  {
    var workers, queued := |r.workers|, |r.queue|;
    var kind, inv := (a: Action) => !a.Launch?, (q: Run) => Within(q, workers, queued);
    forall q: Run, a: Action | Enabled(q, a) && kind(a) && inv(q) ensures inv(Step(q, a)) { StepWithin(q, a, workers, queued); }
    AlwaysHolds(r, actions, kind, inv);
  }

  lemma OpenedReaches(disk: State, args: Args, k: nat)
    requires k <= |Launched(disk, args).workers| && k <= |Launched(disk, args).queue|
    ensures Reaches(disk, args, k, Starts(0, k))
  {
    var start := Launched(disk, args);
    StartsOpen(start, 0, k);
    StartsStart(0, k);
    RunWithin(start, Starts(0, k));
    assert Busy(After(start, Starts(0, k))) == Below(k);
  }

  /**
    So many pictures can be in the making at once, read off the options: no more than are queued, and one, or as
    many as the number given; none if it is no number.
  */
  lemma AtOnceExactly(disk: State, args: Args, k: nat)
    requires Accepted(args)
    ensures (exists actions :: Reaches(disk, args, k, actions)) <==>
            k == 0 || (k <= |Launched(disk, args).queue| && args.concurrency.Some? && (k == 1 || k as real <= args.concurrency.value))
  {
    var start := Launched(disk, args);
    if k <= |start.workers| && k <= |start.queue| { OpenedReaches(disk, args, k); }
    if actions :| Reaches(disk, args, k, actions) {
      RunWithin(start, actions);
      FewerThan(Busy(After(start, actions)), |start.workers|);
    }
  }

  lemma {:induction false} StartsStart(from: nat, n: nat)
    ensures forall i | 0 <= i < |Starts(from, n)| :: Starts(from, n)[i].Start?
    decreases n
  {
    if n > 0 { StartsStart(from + 1, n - 1); }
  }

  // ----- an id named twice -----

  predicate NoLaunch(actions: seq<Action>)
  {
    forall i | 0 <= i < |actions| :: !actions[i].Launch?
  }

  lemma {:induction false} RunsOn(r: Run, a: seq<Action>, b: seq<Action>)
    requires Runs(r, a) && Runs(After(r, a), b)
    ensures Runs(r, a + b) && After(r, a + b) == After(After(r, a), b)
    decreases |a|
  {
    if a == [] {
      assert a + b == b;
    } else {
      assert (a + b)[0] == a[0] && (a + b)[1..] == a[1..] + b;
      RunsOn(Step(r, a[0]), a[1..], b);
    }
  }

  /** One worker working alone through the next `n` ids of the queue. */
  lemma {:induction false} Alone(r: Run, n: nat, key: Key) returns (actions: seq<Action>)
    requires r.workers != [] && r.workers[0].Making? && !r.stopped && n <= |r.queue|
    ensures Runs(r, actions) && NoLaunch(actions)
    ensures var end := After(r, actions);
      && |end.workers| == |r.workers| && !end.stopped && end.queue == r.queue[n..]
      && end.workers[0] == (if n == 0 then r.workers[0] else Making(r.queue[n - 1]))
    decreases n
  {
    actions := [];
    if n > 0 {
      var next := Step(r, Finish(0, Made(key)));
      assert next.queue == r.queue[1..] && next.workers[0] == Making(r.queue[0]);
      var rest := Alone(next, n - 1, key);
      actions := [Finish(0, Made(key))] + rest;
      assert actions[1..] == rest;
      assert After(next, rest).queue == r.queue[1..][n - 1..] == r.queue[n..];
    }
  }

  /** In some run of one process the id has a good picture and later another one. */
  ghost predicate Replaces(start: Run, before: seq<Action>, later: seq<Action>, id: Id)
  {
    && NoLaunch(before) && NoLaunch(later) && Runs(start, before) && Runs(After(start, before), later)
    && IsOk(After(start, before).disk, id)
    && IsOk(After(After(start, before), later).disk, id)
    && After(After(start, before), later).disk[id] != After(start, before).disk[id]
  }

  lemma {:induction false} TwoPlaces(s: seq<Id>, id: Id) returns (i: nat, j: nat)
    requires Times(s, id) >= 2
    ensures i < j < |s| && s[i] == s[j] == id
  {
    if s[0] == id {
      i := 0;
      TimesZero(s[1..], id);
      var k :| 0 <= k < |s[1..]| && s[1..][k] == id;
      j := k + 1;
    } else {
      i, j := TwoPlaces(s[1..], id);
      i, j := i + 1, j + 1;
    }
  }

  /** A lone worker reaches a given place of the queue, from the moment the process starts. */
  lemma Reach(disk: State, args: Args, i: nat, key: Key) returns (actions: seq<Action>)
    requires Accepted(args) && args.concurrency.Some? && i < |Selected(disk, args, args.wanted)|
    ensures var start := Launched(disk, args);
      && Runs(start, actions) && NoLaunch(actions)
      && var end := After(start, actions);
         && end.workers != [] && !end.stopped && end.queue == start.queue[i + 1..]
         && end.workers[0] == Making(start.queue[i])
  {
    var start := Launched(disk, args);
    var first := Step(start, Start(0));
    var rest := Alone(first, i, key);
    actions := [Start(0)] + rest;
    assert actions[1..] == rest;
    assert first.queue == start.queue[1..];
    assert start.queue[1..][i..] == start.queue[i + 1..];
  }

  /** One more action at the end of a run. */
  lemma OneMore(r: Run, actions: seq<Action>, a: Action)
    requires Runs(r, actions) && Enabled(After(r, actions), a)
    ensures Runs(r, actions + [a]) && After(r, actions + [a]) == Step(After(r, actions), a)
  {
    var last := After(r, actions);
    assert [a][1..] == [];
    assert Runs(Step(last, a), []);
    assert Runs(last, [a]);
    RunsOn(r, actions, [a]);
  }

  /** A good picture of the id is stored, and the lone worker goes on to the next place of the queue. */
  lemma FirstMade(disk: State, args: Args, id: Id, i: nat) returns (before: seq<Action>)
    requires Accepted(args) && args.concurrency.Some? && i + 1 < |Launched(disk, args).queue| && Launched(disk, args).queue[i] == id
    ensures var start := Launched(disk, args);
      && Runs(start, before) && NoLaunch(before)
      && var middle := After(start, before);
         && middle.memory == middle.disk && id in middle.disk && middle.disk[id] == Done("1", false) && !middle.stopped
         && middle.workers != [] && middle.workers[0] == Making(start.queue[i + 1]) && middle.queue == start.queue[i + 2..]
  {
    var start, one := Launched(disk, args), Finish(0, Made("1"));
    var reach := Reach(disk, args, i, "1");
    OneMore(start, reach, one);
    NoLaunchMore(reach, one);
    before := reach + [one];
  }

  lemma NamedTwiceIsReplaced(disk: State, args: Args, id: Id) returns (before: seq<Action>, later: seq<Action>)
    requires Accepted(args) && args.concurrency.Some? && ToDo(disk, args, id) && Times(args.wanted, id) >= 2
    ensures Replaces(Launched(disk, args), before, later, id)
  {
    var start := Launched(disk, args);
    SelectedTimes(disk, args, args.wanted, id);
    var i, j := TwoPlaces(start.queue, id);
    before := FirstMade(disk, args, id, i);
    later := LaterReplaced(After(start, before), j - i - 1, id);
  }

  /** From the first good picture on, a lone worker comes to the id again and stores another one. */
  lemma LaterReplaced(r: Run, k: nat, id: Id) returns (later: seq<Action>)
    requires r.workers != [] && !r.stopped && r.workers[0].Making? && k <= |r.queue| && ([r.workers[0].id] + r.queue)[k] == id
    requires r.memory == r.disk && IsOk(r.disk, id) && r.disk[id] == Done("1", false)
    ensures NoLaunch(later) && Runs(r, later) && IsOk(After(r, later).disk, id)
    ensures After(r, later).disk[id] == Done("2", false)
  {
    var further := Alone(r, k, "1");
    var two := Finish(0, Made("2"));
    OneMore(r, further, two);
    NoLaunchMore(further, two);
    later := further + [two];
  }

  lemma NoLaunchMore(actions: seq<Action>, a: Action)
    requires NoLaunch(actions) && !a.Launch?
    ensures NoLaunch(actions + [a])
  {
  }

  lemma NamedOnceIsKept(disk: State, args: Args, before: seq<Action>, later: seq<Action>, id: Id)
    requires ToDo(disk, args, id) ==> Times(args.wanted, id) <= 1
    requires !IsOk(disk, id) || !ToDo(disk, args, id)
    ensures !Replaces(Launched(disk, args), before, later, id)
  {
    var start := Launched(disk, args);
    if Replaces(start, before, later, id) {
      LaunchedPending(disk, args, id);
      var kind := (a: Action) => !a.Launch?;
      forall q: Run, a: Action | Enabled(q, a) && kind(a) && Settled(q, id)
        ensures Settled(Step(q, a), id)
        ensures IsOk(q.disk, id) ==> IsOk(Step(q, a).disk, id) && Step(q, a).disk[id] == q.disk[id]
      {
        StepKeepsSettled(q, a, id);
      }
      AlwaysHolds(start, before, kind, (q: Run) => Settled(q, id));
      var middle := After(start, before);
      var picture := middle.disk[id];
      AlwaysHolds(middle, later, kind, (q: Run) => Settled(q, id) && IsOk(q.disk, id) && q.disk[id] == picture);
    }
  }

  /**
    For an accepted list and an id without a good picture yet: one run can store a good picture and then
    replace it by another exactly when the list names the id twice, and there is a worker.
  */
  lemma ReplacedExactlyWhenNamedTwice(disk: State, args: Args, id: Id)
    requires Accepted(args) && !IsOk(disk, id)
    ensures (exists before, later :: Replaces(Launched(disk, args), before, later, id))
            <==> Times(args.wanted, id) >= 2 && args.concurrency.Some?
  {
    if Times(args.wanted, id) >= 2 && args.concurrency.Some? {
      var before, later := NamedTwiceIsReplaced(disk, args, id);
    } else if args.concurrency.Some? {
      forall before, later ensures !Replaces(Launched(disk, args), before, later, id) {
        NamedOnceIsKept(disk, args, before, later, id);
      }
    } else {
      forall before, later ensures !Replaces(Launched(disk, args), before, later, id) {
        NothingReplaced(Launched(disk, args), before, later, id);
      }
    }
  }

  /** Without a worker nothing happens until the next start. */
  lemma NoWorkerNoRun(r: Run, actions: seq<Action>)
    requires r.workers == []
    ensures Runs(r, actions) && NoLaunch(actions) ==> actions == []
  {
  }

  lemma NothingReplaced(r: Run, before: seq<Action>, later: seq<Action>, id: Id)
    requires r.workers == []
    ensures !Replaces(r, before, later, id)
  {
    NoWorkerNoRun(r, before);
    NoWorkerNoRun(r, later);
  }

  // ----- resuming -----

  function Attempts(done: seq<Attempt>, id: Id): nat
  {
    if done == [] then 0 else Attempts(done[..|done| - 1], id) + One(done[|done| - 1].id == id)
  }

  predicate MadeIn(done: seq<Attempt>, id: Id)
  {
    exists i | 0 <= i < |done| :: done[i].id == id && done[i].result.Made?
  }

  /** How often an id occurs over the queue, the workers, the finished attempts and the given up. */
  function Places(r: Run, id: Id): nat
  {
    Pending(r, id) + Attempts(r.done, id) + Times(r.lost, id)
  }

  lemma TakePlaces(r: Run, w: nat, id: Id)
    requires w < |r.workers|
    ensures Places(TakeNext(r, w), id) + One(Holds(r.workers[w], id)) == Places(r, id)
  {
    TakePending(r, w, id);
    if r.queue != [] { TimesConcat(r.lost, [r.queue[0]], id); }
  }

  lemma StoredPlaces(r: Run, w: nat, result: Result, id: Id)
    requires w < |r.workers| && r.workers[w].Making? && !result.OutOfCredits?
    ensures Places(Stored(r, w, result), id) == Places(r, id) + One(Holds(r.workers[w], id))
    ensures Stored(r, w, result).workers == r.workers
  {
    var done := Stored(r, w, result).done;
    assert done[..|r.done|] == r.done;
  }

  lemma StopPlaces(r: Run, w: nat, id: Id)
    requires w < |r.workers| && r.workers[w].Making?
    ensures Places(Finished(r, w, OutOfCredits), id) == Places(r, id)
  {
    HeldUpdate(r.workers, w, Returned, id);
    TimesConcat(r.lost, [r.workers[w].id], id);
  }

  lemma StepPlaces(r: Run, a: Action, id: Id)
    requires Enabled(r, a) && !a.Launch?
    ensures Places(Step(r, a), id) == Places(r, id)
  {
    if a.Start? {
      TakePlaces(r, a.worker, id);
    } else if a.result.OutOfCredits? {
      StopPlaces(r, a.worker, id);
    } else {
      StoredPlaces(r, a.worker, a.result, id);
      TakePlaces(Stored(r, a.worker, a.result), a.worker, id);
    }
  }

  /** The file's good pictures are those of the start and those made since. */
  ghost predicate OkExplained(r: Run, disk: State, id: Id)
  {
    r.memory == r.disk && (IsOk(r.disk, id) <==> IsOk(disk, id) || MadeIn(r.done, id))
  }

  lemma MadeGrows(done: seq<Attempt>, attempt: Attempt, id: Id)
    ensures MadeIn(done + [attempt], id) <==> MadeIn(done, id) || (attempt.id == id && attempt.result.Made?)
  {
    var longer := done + [attempt];
    if MadeIn(done, id) {
      var i :| 0 <= i < |done| && done[i].id == id && done[i].result.Made?;
      assert longer[i] == done[i];
    }
    if attempt.id == id && attempt.result.Made? { assert longer[|done|] == attempt; }
  }

  lemma StepExplained(r: Run, a: Action, disk: State, id: Id)
    requires Enabled(r, a) && !a.Launch? && OkExplained(r, disk, id)
    ensures OkExplained(Step(r, a), disk, id)
  {
    if a.Finish? { MadeGrows(r.done, Attempt(r.workers[a.worker].id, a.result), id); }
  }

  lemma AlwaysExplained(disk: State, args: Args, actions: seq<Action>, id: Id)
    requires Runs(Launched(disk, args), actions) && NoLaunch(actions)
    ensures var r := After(Launched(disk, args), actions);
      OkExplained(r, disk, id) && Places(r, id) == Places(Launched(disk, args), id)
  {
    var start := Launched(disk, args);
    var n := Places(start, id);
    var kind := (a: Action) => !a.Launch?;
    var inv := (q: Run) => OkExplained(q, disk, id) && Places(q, id) == n;
    forall q: Run, a: Action | Enabled(q, a) && kind(a) && inv(q) ensures inv(Step(q, a)) {
      StepExplained(q, a, disk, id);
      StepPlaces(q, a, id);
    }
    AlwaysHolds(start, actions, kind, inv);
  }

  /**
    A run is cut at any moment, stopped for lack of credit or not; the next one, without force and approved
    pictures, queues exactly those of its ids that had no good picture and for which none was made.
  */
  lemma ResumeTakesTheUnfinished(disk: State, args: Args, actions: seq<Action>, next: Args, id: Id)
    requires Runs(Launched(disk, args), actions) && NoLaunch(actions)
    requires Accepted(next) && !next.force && next.approved == {}
    ensures var r := After(Launched(disk, args), actions);
      Times(Launched(r.disk, next).queue, id)
      == if IsOk(disk, id) || MadeIn(r.done, id) then 0 else Times(next.wanted, id)
  {
    var r := After(Launched(disk, args), actions);
    AlwaysExplained(disk, args, actions, id);
    SelectedTimes(r.disk, next, next.wanted, id);
  }

  // ----- a finished run -----

  predicate AllReturned(r: Run)
  {
    forall i | 0 <= i < |r.workers| :: r.workers[i].Returned?
  }

  /** Unless stopped nothing is given up, and a worker returns only from an empty queue. */
  ghost predicate Going(r: Run)
  {
    !r.stopped ==> r.lost == [] && ((exists i | 0 <= i < |r.workers| :: r.workers[i].Returned?) ==> r.queue == [])
  }

  lemma StepKeepsGoing(r: Run, a: Action)
    requires Enabled(r, a) && !a.Launch? && Going(r)
    ensures Going(Step(r, a)) && |Step(r, a).workers| == |r.workers|
  {
    var q := Step(r, a);
    if !q.stopped && exists i | 0 <= i < |q.workers| :: q.workers[i].Returned? {
      var i :| 0 <= i < |q.workers| && q.workers[i].Returned?;
      if i != a.worker { assert r.workers[i].Returned?; }
    }
  }

  /**
    When a run ends, every queued id was attempted, given up by the stop, or is still queued, as often as it was
    queued; if the provider never refused, it was attempted that often if there was a worker, and else not at all.
  */
  lemma FinishedRunAttemptsAll(disk: State, args: Args, actions: seq<Action>, id: Id)
    requires Accepted(args) && Runs(Launched(disk, args), actions) && NoLaunch(actions)
    requires AllReturned(After(Launched(disk, args), actions))
    ensures var r := After(Launched(disk, args), actions);
      var queued := if ToDo(disk, args, id) then Times(args.wanted, id) else 0;
      && Attempts(r.done, id) + Times(r.lost, id) + Times(r.queue, id) == queued
      && (!r.stopped ==> Attempts(r.done, id) == if args.concurrency.Some? then queued else 0)
  {
    if args.concurrency.None? {
      NoWorkerNoRun(Launched(disk, args), actions);
      LaunchedPending(disk, args, id);
      AlwaysExplained(disk, args, actions, id);
    } else {
      WorkersAttemptAll(disk, args, actions, id);
    }
  }

  lemma WorkersAttemptAll(disk: State, args: Args, actions: seq<Action>, id: Id)
    requires Accepted(args) && Runs(Launched(disk, args), actions) && NoLaunch(actions) && args.concurrency.Some?
    requires AllReturned(After(Launched(disk, args), actions))
    ensures var r := After(Launched(disk, args), actions);
      var queued := if ToDo(disk, args, id) then Times(args.wanted, id) else 0;
      && Attempts(r.done, id) + Times(r.lost, id) + Times(r.queue, id) == queued
      && (!r.stopped ==> Attempts(r.done, id) == queued)
  {
    var start := Launched(disk, args);
    var r, n := After(start, actions), |start.workers|;
    LaunchedPending(disk, args, id);
    AlwaysExplained(disk, args, actions, id);
    NoneHeld(r.workers, id);
    var kind, inv := (a: Action) => !a.Launch?, (q: Run) => Going(q) && |q.workers| == n;
    forall q: Run, a: Action | Enabled(q, a) && kind(a) && inv(q) ensures inv(Step(q, a)) {
      StepKeepsGoing(q, a);
    }
    AlwaysHolds(start, actions, kind, inv);
    assert r.workers[0].Returned?;
  }

  ghost predicate EndedWell(disk: State, args: Args, actions: seq<Action>)
  {
    && Runs(Launched(disk, args), actions) && NoLaunch(actions)
    && AllReturned(After(Launched(disk, args), actions)) && !After(Launched(disk, args), actions).stopped
  }

  /** Every run that ends without a stop has attempted every queued id, as often as it was queued. */
  ghost predicate AttemptsAll(disk: State, args: Args)
  {
    forall actions, id | EndedWell(disk, args, actions) ::
      Attempts(After(Launched(disk, args), actions).done, id) == Times(Selected(disk, args, args.wanted), id)
  }

  /** That is so exactly when the concurrency given is a number, or nothing is queued. */
  lemma AttemptsAllExactlyWhen(disk: State, args: Args)
    requires Accepted(args)
    ensures AttemptsAll(disk, args) <==> args.concurrency.Some? || Selected(disk, args, args.wanted) == []
  {
    var queue := Selected(disk, args, args.wanted);
    forall actions, id | EndedWell(disk, args, actions)
      ensures Attempts(After(Launched(disk, args), actions).done, id)
              == if args.concurrency.Some? then Times(queue, id) else 0
    {
      FinishedRunAttemptsAll(disk, args, actions, id);
      SelectedTimes(disk, args, args.wanted, id);
    }
    if args.concurrency.None? && queue != [] {
      assert EndedWell(disk, args, []);
      assert Times(queue, queue[0]) > 0;
    }
  }
}
