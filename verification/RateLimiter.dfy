/**
  The sliding-window limiter of the admin panel: per-key lists of admission times, filtered lazily and
  pruned when too many keys are tracked; and the naive limiter that keeps every admission for ever.
*/
module RateLimiter {

  const WINDOW_MS := 60_000
  const MAX_TRACKED := 2_000

  type Stamps = seq<int>

  datatype Verdict = Admitted | Refused(retryAfterSeconds: int)

  /** The admissions that still count at `now`, in order. */
  function Fresh(stamps: Stamps, now: int): Stamps
  {
    if stamps == [] then []
    else
      var n := |stamps| - 1;
      if now - stamps[n] < WINDOW_MS then Fresh(stamps[..n], now) + [stamps[n]] else Fresh(stamps[..n], now)
  }

  function Of(hits: map<string, Stamps>, key: string): Stamps
  {
    if key in hits then hits[key] else []
  }

  /** Rounding up, for positive and negative numerators. */
  function CeilDiv(a: int, b: int): int
    requires b > 0
  {
    (a + b - 1) / b
  }

  function RetryAfter(oldest: int, now: int): int
  {
    var seconds := CeilDiv(WINDOW_MS - (now - oldest), 1000);
    if seconds < 1 then 1 else seconds
  }

  /** Every key's list filtered; emptied keys are dropped. */
  function Prune(hits: map<string, Stamps>, now: int): map<string, Stamps>
  {
    map k | k in hits && Fresh(hits[k], now) != [] :: Fresh(hits[k], now)
  }

  /** One check of the limiter as written. */
  function CheckF(hits: map<string, Stamps>, key: string, limit: int, now: int): (Verdict, map<string, Stamps>)
  {
    if limit <= 0 then (Admitted, hits)
    else
      Decide(if |hits| > MAX_TRACKED then Prune(hits, now) else hits, key, limit, now)
  }

  function Decide(hits: map<string, Stamps>, key: string, limit: int, now: int): (Verdict, map<string, Stamps>)
    requires limit > 0
  {
    var alive := Fresh(Of(hits, key), now);
    if |alive| >= limit then (Refused(RetryAfter(alive[0], now)), hits[key := alive])
    else (Admitted, hits[key := alive + [now]])
  }

  /** One check of the naive limiter over the complete history of admissions. */
  function NaiveF(history: map<string, Stamps>, key: string, limit: int, now: int): (Verdict, map<string, Stamps>)
  {
    if limit <= 0 then (Admitted, history)
    else
      var live := Fresh(Of(history, key), now);
      if |live| >= limit then (Refused(RetryAfter(live[0], now)), history)
      else (Admitted, history[key := Of(history, key) + [now]])
  }

  // ----- filtering -----

  lemma {:induction false} FreshMembers(s: Stamps, now: int)
    ensures forall x :: x in Fresh(s, now) <==> x in s && now - x < WINDOW_MS
  {
    if s != [] {
      FreshMembers(s[..|s| - 1], now);
      assert s == s[..|s| - 1] + [s[|s| - 1]];
    }
  }

  lemma FreshAppend(s: Stamps, x: int, now: int)
    ensures Fresh(s + [x], now) == Fresh(s, now) + (if now - x < WINDOW_MS then [x] else [])
  {
    assert (s + [x])[..|s|] == s;
  }

  /** Filtering early loses nothing that a later filter keeps. */
  lemma {:induction false} FreshFresh(s: Stamps, t: int, now: int)
    requires t <= now
    ensures Fresh(Fresh(s, t), now) == Fresh(s, now)
  {
    if s != [] {
      var n := |s| - 1;
      FreshFresh(s[..n], t, now);
      if t - s[n] < WINDOW_MS { FreshAppend(Fresh(s[..n], t), s[n], now); }
    }
  }

  // ----- refinement -----

  /** At time `t` the limiter's lists and the history hold the same live admissions. */
  ghost predicate Agree(hits: map<string, Stamps>, history: map<string, Stamps>, t: int)
  {
    forall k :: Fresh(Of(hits, k), t) == Fresh(Of(history, k), t)
  }

  lemma AgreeLater(hits: map<string, Stamps>, history: map<string, Stamps>, t: int, now: int)
    requires Agree(hits, history, t) && t <= now
    ensures Agree(hits, history, now)
  {
    forall k ensures Fresh(Of(hits, k), now) == Fresh(Of(history, k), now) {
      FreshFresh(Of(hits, k), t, now);
      FreshFresh(Of(history, k), t, now);
    }
  }

  /** Pruning is unobservable, whenever it happens. */
  lemma PruneAgrees(hits: map<string, Stamps>, history: map<string, Stamps>, now: int)
    requires Agree(hits, history, now)
    ensures Agree(Prune(hits, now), history, now)
  {
    forall k ensures Fresh(Of(Prune(hits, now), k), now) == Fresh(Of(history, k), now) {
      if k in hits { FreshFresh(hits[k], now, now); }
    }
  }

  lemma SetAgrees(hits: map<string, Stamps>, history: map<string, Stamps>, key: string, a: Stamps, b: Stamps, now: int)
    requires Agree(hits, history, now) && Fresh(a, now) == Fresh(b, now)
    ensures Agree(hits[key := a], history[key := b], now)
  {
    var hits', history' := hits[key := a], history[key := b];
    forall k ensures Fresh(Of(hits', k), now) == Fresh(Of(history', k), now) {
      if k != key { assert Of(hits', k) == Of(hits, k) && Of(history', k) == Of(history, k); }
    }
  }

  lemma SameListAgrees(hits: map<string, Stamps>, history: map<string, Stamps>, key: string, a: Stamps, now: int)
    requires Agree(hits, history, now) && Fresh(a, now) == Fresh(Of(history, key), now)
    ensures Agree(hits[key := a], history, now)
  {
    var hits' := hits[key := a];
    forall k ensures Fresh(Of(hits', k), now) == Fresh(Of(history, k), now) {
      if k != key { assert Of(hits', k) == Of(hits, k); }
    }
  }

  lemma RefusalRefines(hits: map<string, Stamps>, history: map<string, Stamps>, key: string, limit: int, now: int)
    requires Agree(hits, history, now) && 0 < limit <= |Fresh(Of(history, key), now)|
    ensures Decide(hits, key, limit, now).0 == NaiveF(history, key, limit, now).0
    ensures Agree(Decide(hits, key, limit, now).1, NaiveF(history, key, limit, now).1, now)
  {
    var live := Fresh(Of(history, key), now);
    assert Fresh(Of(hits, key), now) == live;
    FreshFresh(Of(history, key), now, now);
    SameListAgrees(hits, history, key, live, now);
  }

  lemma AdmissionRefines(hits: map<string, Stamps>, history: map<string, Stamps>, key: string, limit: int, now: int)
    requires Agree(hits, history, now) && limit > |Fresh(Of(history, key), now)|
    ensures Decide(hits, key, limit, now).0 == NaiveF(history, key, limit, now).0
    ensures Agree(Decide(hits, key, limit, now).1, NaiveF(history, key, limit, now).1, now)
  {
    var live := Fresh(Of(history, key), now);
    assert Fresh(Of(hits, key), now) == live;
    FreshFresh(Of(history, key), now, now);
    FreshAppend(live, now, now);
    FreshAppend(Of(history, key), now, now);
    SetAgrees(hits, history, key, live + [now], Of(history, key) + [now], now);
  }

  /** One check gives the naive verdict and the naive retry value, and keeps the two in agreement. */
  lemma CheckRefinesNaive(hits: map<string, Stamps>, history: map<string, Stamps>, t: int, key: string, limit: int, now: int)
    requires Agree(hits, history, t) && t <= now
    ensures CheckF(hits, key, limit, now).0 == NaiveF(history, key, limit, now).0
    ensures Agree(CheckF(hits, key, limit, now).1, NaiveF(history, key, limit, now).1, now)
  {
    AgreeLater(hits, history, t, now);
    if limit > 0 {
      PruneAgrees(hits, history, now);
      var kept := if |hits| > MAX_TRACKED then Prune(hits, now) else hits;
      if |Fresh(Of(history, key), now)| >= limit {
        RefusalRefines(kept, history, key, limit, now);
      } else {
        AdmissionRefines(kept, history, key, limit, now);
      }
    }
  }

  // ----- whole runs -----

  datatype Event = Event(key: string, limit: int, now: int)

  ghost predicate Ordered(run: seq<Event>)
  {
    forall i, j | 0 <= i < j < |run| :: run[i].now <= run[j].now
  }

  function Run(run: seq<Event>): (seq<Verdict>, map<string, Stamps>)
  {
    if run == [] then ([], map[])
    else
      var n := |run| - 1;
      var (vs, hits) := Run(run[..n]);
      var (v, hits') := CheckF(hits, run[n].key, run[n].limit, run[n].now);
      (vs + [v], hits')
  }

  function NaiveRun(run: seq<Event>): (seq<Verdict>, map<string, Stamps>)
  {
    if run == [] then ([], map[])
    else
      var n := |run| - 1;
      var (vs, history) := NaiveRun(run[..n]);
      var (v, history') := NaiveF(history, run[n].key, run[n].limit, run[n].now);
      (vs + [v], history')
  }

  /** Over every run the limiter and the naive limiter give the same verdicts and retry values. */
  lemma {:induction false} RunRefinesNaive(run: seq<Event>)
    requires Ordered(run)
    ensures Run(run).0 == NaiveRun(run).0
    ensures run != [] ==> Agree(Run(run).1, NaiveRun(run).1, run[|run| - 1].now)
  {
    if run != [] {
      var n := |run| - 1;
      RunRefinesNaive(run[..n]);
      var t := if n == 0 then run[n].now else run[n - 1].now;
      assert Agree(Run(run[..n]).1, NaiveRun(run[..n]).1, t) by {
        if n > 0 { assert run[..n][n - 1] == run[n - 1]; }
      }
      CheckRefinesNaive(Run(run[..n]).1, NaiveRun(run[..n]).1, t, run[n].key, run[n].limit, run[n].now);
    }
  }

  // ----- other keys' traffic -----

  function Only(run: seq<Event>, key: string): seq<Event>
  {
    if run == [] then []
    else
      var n := |run| - 1;
      if run[n].key == key then Only(run[..n], key) + [run[n]] else Only(run[..n], key)
  }

  /** The verdicts of one key's events. */
  function VerdictsOf(run: seq<Event>, vs: seq<Verdict>, key: string): seq<Verdict>
    requires |run| == |vs|
  {
    if run == [] then []
    else
      var n := |run| - 1;
      if run[n].key == key then VerdictsOf(run[..n], vs[..n], key) + [vs[n]] else VerdictsOf(run[..n], vs[..n], key)
  }

  lemma {:induction false} NaiveRunLength(run: seq<Event>)
    ensures |NaiveRun(run).0| == |run|
  {
    if run != [] { NaiveRunLength(run[..|run| - 1]); }
  }

  lemma {:induction false} NaiveIsolation(run: seq<Event>, key: string)
    ensures |NaiveRun(run).0| == |run|
    ensures VerdictsOf(run, NaiveRun(run).0, key) == NaiveRun(Only(run, key)).0
    ensures Of(NaiveRun(run).1, key) == Of(NaiveRun(Only(run, key)).1, key)
  {
    NaiveRunLength(run);
    if run != [] {
      var n := |run| - 1;
      NaiveIsolation(run[..n], key);
      assert NaiveRun(run).0[..n] == NaiveRun(run[..n]).0;
      if run[n].key == key {
        var before := Only(run[..n], key);
        assert (before + [run[n]])[..|before|] == before;
      }
    }
  }

  lemma {:induction false} OnlyOrdered(run: seq<Event>, key: string)
    requires Ordered(run)
    ensures Ordered(Only(run, key))
    ensures forall e | e in Only(run, key) :: e in run
  {
    if run != [] {
      var n := |run| - 1;
      OnlyOrdered(run[..n], key);
      assert run == run[..n] + [run[n]];
      var before := Only(run[..n], key);
      forall i | 0 <= i < |before| ensures before[i].now <= run[n].now {
        assert before[i] in run[..n];
        var j :| 0 <= j < n && run[..n][j] == before[i];
        assert run[j].now <= run[n].now;
      }
    }
  }

  /** A key's verdicts do not depend on any other key's traffic, nor on the pruning that traffic causes. */
  lemma KeysAreIsolated(run: seq<Event>, key: string)
    requires Ordered(run)
    ensures |Run(run).0| == |run|
    ensures VerdictsOf(run, Run(run).0, key) == Run(Only(run, key)).0
  {
    RunRefinesNaive(run);
    OnlyOrdered(run, key);
    RunRefinesNaive(Only(run, key));
    NaiveIsolation(run, key);
  }

  // ----- the window -----

  /** The admitted events of one key, in order. */
  function Admissions(run: seq<Event>, vs: seq<Verdict>, key: string): seq<Event>
    requires |run| == |vs|
  {
    if run == [] then []
    else
      var n := |run| - 1;
      var before := Admissions(run[..n], vs[..n], key);
      if run[n].key == key && vs[n].Admitted? then before + [run[n]] else before
  }

  function Times(es: seq<Event>): Stamps
  {
    seq(|es|, i requires 0 <= i < |es| => es[i].now)
  }

  /** A list of events each of which found fewer live predecessors than its limit. */
  ghost predicate EachFits(es: seq<Event>)
  {
    forall j | 0 <= j < |es| :: |Fresh(Times(es[..j]), es[j].now)| < es[j].limit
  }

  lemma {:induction false} AdmissionsOrdered(run: seq<Event>, vs: seq<Verdict>, key: string)
    requires |run| == |vs| && Ordered(run)
    ensures var es := Admissions(run, vs, key);
      Ordered(es) && (forall i | 0 <= i < |es| :: es[i] in run)
  {
    if run != [] {
      var n := |run| - 1;
      AdmissionsOrdered(run[..n], vs[..n], key);
      var before := Admissions(run[..n], vs[..n], key);
      forall i | 0 <= i < |before| ensures before[i].now <= run[n].now && before[i] in run {
        var j :| 0 <= j < n && run[..n][j] == before[i];
        assert run[j].now <= run[n].now;
      }
    }
  }

  lemma FitsAppend(es: seq<Event>, e: Event)
    requires EachFits(es) && |Fresh(Times(es), e.now)| < e.limit
    ensures EachFits(es + [e])
  {
    forall j | 0 <= j < |es + [e]| ensures |Fresh(Times((es + [e])[..j]), (es + [e])[j].now)| < (es + [e])[j].limit {
      assert (es + [e])[..j] == es[..j];
      assert es[..|es|] == es;
    }
  }

  /** The naive history is the list of admission times, each of which fitted its limit. */
  lemma {:induction false} NaiveAdmissions(run: seq<Event>, key: string)
    requires forall i | 0 <= i < |run| :: run[i].limit > 0
    ensures |NaiveRun(run).0| == |run|
    ensures var es := Admissions(run, NaiveRun(run).0, key);
      Times(es) == Of(NaiveRun(run).1, key) && EachFits(es)
  {
    NaiveRunLength(run);
    if run != [] {
      var n := |run| - 1;
      NaiveAdmissions(run[..n], key);
      var (vs, history) := NaiveRun(run[..n]);
      assert NaiveRun(run).0[..n] == vs;
      NextAdmission(Admissions(run[..n], vs, key), history, key, run[n]);
    }
  }

  /** One more event keeps the admission times the key's history, and each within its limit. */
  lemma NextAdmission(before: seq<Event>, history: map<string, Stamps>, key: string, e: Event)
    requires e.limit > 0 && EachFits(before) && Times(before) == Of(history, key)
    ensures var (v, after) := NaiveF(history, e.key, e.limit, e.now);
      var es := if e.key == key && v.Admitted? then before + [e] else before;
      Times(es) == Of(after, key) && EachFits(es)
  {
    if e.key == key && NaiveF(history, e.key, e.limit, e.now).0.Admitted? {
      assert Times(before + [e]) == Times(before) + [e.now];
      FitsAppend(before, e);
    }
  }

  lemma {:induction false} AllFresh(s: Stamps, now: int)
    requires forall i | 0 <= i < |s| :: now - s[i] < WINDOW_MS
    ensures Fresh(s, now) == s
  {
    if s != [] {
      AllFresh(s[..|s| - 1], now);
      assert s == s[..|s| - 1] + [s[|s| - 1]];
    }
  }

  lemma {:induction false} FreshConcat(a: Stamps, b: Stamps, now: int)
    ensures Fresh(a + b, now) == Fresh(a, now) + Fresh(b, now)
  {
    if b == [] {
      assert a + b == a;
    } else {
      var n := |b| - 1;
      assert a + b == (a + b[..n]) + [b[n]];
      FreshAppend(a + b[..n], b[n], now);
      FreshConcat(a, b[..n], now);
    }
  }

  /**
    Sliding-window safety: the admissions of a key from the `i`-th to the `j`-th, if they lie within one
    window, are at most as many as the limit given to the last of them.
  */
  lemma WindowSafety(run: seq<Event>, key: string, i: nat, j: nat)
    requires Ordered(run) && forall k | 0 <= k < |run| :: run[k].limit > 0
    ensures |Run(run).0| == |run|
    ensures var es := Admissions(run, Run(run).0, key);
      i <= j < |es| && es[j].now - es[i].now < WINDOW_MS ==> j - i + 1 <= es[j].limit
  {
    RunRefinesNaive(run);
    NaiveAdmissions(run, key);
    AdmissionsOrdered(run, Run(run).0, key);
    var es := Admissions(run, Run(run).0, key);
    if i <= j < |es| && es[j].now - es[i].now < WINDOW_MS {
      LastFits(es, i, j);
    }
  }

  lemma TimesSplit(es: seq<Event>, i: nat, j: nat)
    requires i <= j <= |es|
    ensures Times(es[..j]) == Times(es[..i]) + Times(es[i..j])
  {
  }

  lemma LastFits(es: seq<Event>, i: nat, j: nat)
    requires EachFits(es) && Ordered(es) && i <= j < |es| && es[j].now - es[i].now < WINDOW_MS
    ensures j - i + 1 <= es[j].limit
  {
    var head, tail := Times(es[..i]), Times(es[i..j]);
    TimesSplit(es, i, j);
    FreshConcat(head, tail, es[j].now);
    forall k | 0 <= k < |tail| ensures es[j].now - tail[k] < WINDOW_MS {
      assert tail[k] == es[i + k].now >= es[i].now;
    }
    AllFresh(tail, es[j].now);
  }

  // ----- each verdict, from the ones before -----

  /** The event was admitted, under a limit, and lies less than a minute back. */
  predicate Stands(run: seq<Event>, vs: seq<Verdict>, j: nat, key: string, now: int)
  {
    && j < |run| == |vs| && run[j].key == key && run[j].limit > 0
    && vs[j].Admitted? && now - run[j].now < 60_000
  }

  /** The earlier events of the key that stand when the `i`-th arrives. */
  ghost function Standing(run: seq<Event>, vs: seq<Verdict>, i: nat, key: string, now: int): set<nat>
  {
    set j: nat | j < i && Stands(run, vs, j, key, now)
  }

  lemma StandingNext(run: seq<Event>, vs: seq<Verdict>, i: nat, key: string, now: int)
    ensures |Standing(run, vs, 0, key, now)| == 0
    ensures |Standing(run, vs, i + 1, key, now)|
            == |Standing(run, vs, i, key, now)| + if Stands(run, vs, i, key, now) then 1 else 0
  {
    assert Standing(run, vs, 0, key, now) == {};
    assert Standing(run, vs, i + 1, key, now) == Standing(run, vs, i, key, now) + if Stands(run, vs, i, key, now) then {i} else {};
  }

  lemma {:induction false} NaiveStep(run: seq<Event>, i: nat)
    requires i < |run|
    ensures |NaiveRun(run).0| == |run|
    ensures NaiveRun(run[..i + 1]).1 == NaiveF(NaiveRun(run[..i]).1, run[i].key, run[i].limit, run[i].now).1
    ensures NaiveRun(run).0[i] == NaiveF(NaiveRun(run[..i]).1, run[i].key, run[i].limit, run[i].now).0
  {
    var n := |run| - 1;
    NaiveRunLength(run);
    NaiveRunLength(run[..n]);
    if i < n {
      NaiveStep(run[..n], i);
      assert run[..n][..i] == run[..i] && run[..n][..i + 1] == run[..i + 1];
    } else {
      assert run[..i + 1] == run;
    }
  }

  lemma NaiveFresh(history: map<string, Stamps>, e: Event, key: string, now: int)
    ensures var (v, after) := NaiveF(history, e.key, e.limit, e.now);
      |Fresh(Of(after, key), now)| == |Fresh(Of(history, key), now)|
        + if e.key == key && e.limit > 0 && v.Admitted? && now - e.now < 60_000 then 1 else 0
  {
    FreshAppend(Of(history, key), e.now, now);
  }

  /** The live admissions are those that stand, as many as there are. */
  lemma {:induction false} FreshCounts(run: seq<Event>, i: nat, key: string, now: int)
    requires i <= |run|
    ensures |Fresh(Of(NaiveRun(run[..i]).1, key), now)| == |Standing(run, NaiveRun(run).0, i, key, now)|
  {
    if i == 0 {
      StandingNext(run, NaiveRun(run).0, 0, key, now);
    } else {
      FreshCounts(run, i - 1, key, now);
      NaiveStep(run, i - 1);
      NaiveFresh(NaiveRun(run[..i - 1]).1, run[i - 1], key, now);
      StandingNext(run, NaiveRun(run).0, i - 1, key, now);
    }
  }

  /**
    Every verdict of every run, read off the verdicts before it: a check is refused exactly when its limit is
    positive and at least that many earlier checks of the key were admitted less than a minute ago.
  */
  lemma VerdictExact(run: seq<Event>, i: nat)
    requires Ordered(run) && i < |run|
    ensures |Run(run).0| == |run|
    ensures Run(run).0[i].Refused? <==>
            run[i].limit > 0 && |Standing(run, Run(run).0, i, run[i].key, run[i].now)| >= run[i].limit
  {
    RunRefinesNaive(run);
    NaiveStep(run, i);
    FreshCounts(run, i, run[i].key, run[i].now);
  }

  /**
    The map is reviewed only when it has more than 2000 keys: then the keys without a live admission are gone; else
    all stay. What is left of the key checked are its live admissions and, if it was admitted, this one.
  */
  lemma TrackedExactly(hits: map<string, Stamps>, key: string, limit: int, now: int)
    requires limit > 0
    ensures var (verdict, after) := CheckF(hits, key, limit, now);
      && (forall k | k != key :: k in after <==>
           k in hits && (|hits| > 2000 ==> exists stamp :: stamp in hits[k] && now - stamp < 60_000))
      && (forall k | k != key && k in after ::
           if |hits| > 2000 then forall stamp :: stamp in after[k] <==> stamp in hits[k] && now - stamp < 60_000
           else after[k] == hits[k])
      && key in after
      && (forall stamp :: stamp in after[key] <==>
           (stamp in Of(hits, key) && now - stamp < 60_000) || (verdict.Admitted? && stamp == now))
  {
    forall s ensures forall x :: x in Fresh(s, now) <==> x in s && now - x < 60_000 { FreshMembers(s, now); }
    forall k | k in hits ensures Fresh(hits[k], now) != [] <==> exists stamp :: stamp in hits[k] && now - stamp < 60_000 {
      if Fresh(hits[k], now) != [] { assert Fresh(hits[k], now)[0] in Fresh(hits[k], now); }
    }
  }

  // ----- the retry hint -----

  ghost predicate Sorted(s: Stamps)
  {
    forall i, j | 0 <= i < j < |s| :: s[i] <= s[j]
  }

  lemma SuffixSplit(s: Stamps, k: nat)
    requires k < |s|
    ensures s[k..] == s[..|s| - 1][k..] + [s[|s| - 1]]
  {
  }

  /** A later filter of a sorted list drops a prefix. */
  lemma {:induction false} FreshIsSuffix(s: Stamps, now: int) returns (k: nat)
    requires Sorted(s)
    ensures k <= |s| && Fresh(s, now) == s[k..]
    ensures forall i | 0 <= i < |s| :: i < k <==> now - s[i] >= WINDOW_MS
  {
    if s == [] {
      k := 0;
    } else {
      var n := |s| - 1;
      var before := FreshIsSuffix(s[..n], now);
      if now - s[n] < WINDOW_MS {
        k := before;
        SuffixSplit(s, k);
      } else {
        k := |s|;
        assert forall i | 0 <= i < n :: s[..n][i] == s[i];
      }
    }
  }

  /** Sooner or later: a refused key is admitted once the stamp `limit` places from the end has left the window. */
  lemma AdmittedFrom(live: Stamps, limit: int, now: int)
    requires Sorted(live) && 0 < limit <= |live|
    ensures |Fresh(live, now)| < limit <==> now - live[|live| - limit] >= WINDOW_MS
  {
    var k := FreshIsSuffix(live, now);
    assert |Fresh(live, now)| == |live| - k;
  }

  /** The stamp whose expiry admits the key again. */
  function Due(live: Stamps, limit: int): int
    requires 0 < limit <= |live|
  {
    live[|live| - limit]
  }

  /** With nothing admitted in between, a check after `x` whole seconds is admitted from `r` on and not before. */
  ghost predicate LeastWait(history: map<string, Stamps>, key: string, limit: int, now: int, r: int)
  {
    forall x: nat :: NaiveF(history, key, limit, now + 1000 * x).0.Admitted? <==> x >= r
  }

  lemma LeastWaitUnique(history: map<string, Stamps>, key: string, limit: int, now: int, r: nat, q: nat)
    requires LeastWait(history, key, limit, now, r) && LeastWait(history, key, limit, now, q)
    ensures r == q
  {
    assert NaiveF(history, key, limit, now + 1000 * r).0.Admitted?;
    assert NaiveF(history, key, limit, now + 1000 * q).0.Admitted?;
  }

  lemma DueIsLeastWait(history: map<string, Stamps>, key: string, limit: int, now: int)
    requires limit > 0 && |Fresh(Of(history, key), now)| >= limit
    requires Sorted(Of(history, key)) && forall x | x in Of(history, key) :: x <= now
    ensures LeastWait(history, key, limit, now, RetryAfter(Due(Fresh(Of(history, key), now), limit), now))
  {
    var live := Fresh(Of(history, key), now);
    LiveIsSorted(Of(history, key), limit, now);
    var due := Due(live, limit);
    forall x: nat ensures NaiveF(history, key, limit, now + 1000 * x).0.Admitted? <==> x >= RetryAfter(due, now) {
      DueAfter(history, key, limit, now, x);
    }
  }

  lemma DueAfter(history: map<string, Stamps>, key: string, limit: int, now: int, x: nat)
    requires limit > 0 && |Fresh(Of(history, key), now)| >= limit
    requires Sorted(Fresh(Of(history, key), now))
    requires now - WINDOW_MS < Due(Fresh(Of(history, key), now), limit) <= now
    ensures NaiveF(history, key, limit, now + 1000 * x).0.Admitted?
            <==> x >= RetryAfter(Due(Fresh(Of(history, key), now), limit), now)
  {
    var live, later := Fresh(Of(history, key), now), now + 1000 * x;
    var due := Due(live, limit);
    calc {
      NaiveF(history, key, limit, later).0.Admitted?;
      { AdmitsFewer(history, key, limit, later); }
      |Fresh(Of(history, key), later)| < limit;
      { FreshFresh(Of(history, key), now, later); }
      |Fresh(live, later)| < limit;
      { AdmittedFrom(live, limit, later); }
      later - due >= WINDOW_MS;
      { HintLeast(due, now, x); }
      x >= RetryAfter(due, now);
    }
  }

  lemma AdmitsFewer(history: map<string, Stamps>, key: string, limit: int, now: int)
    requires limit > 0
    ensures NaiveF(history, key, limit, now).0.Admitted? <==> |Fresh(Of(history, key), now)| < limit
  {
  }

  /** The live stamps are a sorted end of the history, all within the window. */
  lemma LiveIsSorted(s: Stamps, limit: int, now: int)
    requires limit > 0 && |Fresh(s, now)| >= limit
    requires Sorted(s) && forall x | x in s :: x <= now
    ensures Sorted(Fresh(s, now))
    ensures now - WINDOW_MS < Fresh(s, now)[0] <= now
    ensures now - WINDOW_MS < Due(Fresh(s, now), limit) <= now
  {
    var live := Fresh(s, now);
    var k := FreshIsSuffix(s, now);
    assert live[0] == s[k] && Due(live, limit) == s[k + |live| - limit];
    assert live[0] in s && Due(live, limit) in s;
  }

  /**
    The retry hint of a refusal lies in 1..60. It is the least whole number of seconds after which the key
    is admitted exactly when the oldest live stamp leaves the window in the same second as the stamp
    whose expiry admits the key; with as many live stamps as the limit they are the same stamp.
  */
  lemma RetryHintExact(history: map<string, Stamps>, key: string, limit: int, now: int)
    requires limit > 0 && NaiveF(history, key, limit, now).0.Refused?
    requires Sorted(Of(history, key)) && forall x | x in Of(history, key) :: x <= now
    ensures var r := NaiveF(history, key, limit, now).0.retryAfterSeconds;
      var live := Fresh(Of(history, key), now);
      && 1 <= r <= 60 && |live| >= limit
      && (LeastWait(history, key, limit, now, r) <==> RetryAfter(live[0], now) == RetryAfter(Due(live, limit), now))
      && (|live| == limit ==> LeastWait(history, key, limit, now, r))
  {
    var live := Fresh(Of(history, key), now);
    var r, q := RetryAfter(live[0], now), RetryAfter(Due(live, limit), now);
    DueIsLeastWait(history, key, limit, now);
    LiveIsSorted(Of(history, key), limit, now);
    HintRange(live[0], now);
    HintRange(Due(live, limit), now);
    if LeastWait(history, key, limit, now, r) { LeastWaitUnique(history, key, limit, now, r, q); }
  }

  /** Under a constant limit a key never has more live stamps than the limit, so its hints are exact. */
  lemma {:induction false} ConstantLimitHint(run: seq<Event>, key: string, limit: int, now: int)
    requires Ordered(run) && (forall i | 0 <= i < |run| :: run[i].limit == limit > 0 && run[i].now <= now)
    requires NaiveF(NaiveRun(run).1, key, limit, now).0.Refused?
    ensures LeastWait(NaiveRun(run).1, key, limit, now, NaiveF(NaiveRun(run).1, key, limit, now).0.retryAfterSeconds)
  {
    var history := NaiveRun(run).1;
    NaiveAdmissions(run, key);
    var es := Admissions(run, NaiveRun(run).0, key);
    AdmissionsOrdered(run, NaiveRun(run).0, key);
    assert forall e | e in run :: e.limit == limit && e.now <= now;
    FewLive(es, limit, now);
    RetryHintExact(history, key, limit, now);
  }

  lemma TwoFresh(s: Stamps, a: int, b: int, now: int)
    requires s == [a, b] && now - b < WINDOW_MS
    ensures Fresh(s, now) == if now - a < WINDOW_MS then [a, b] else [b]
  {
    assert s[..1] == [a] && [a][..0] == [];
    assert Fresh([], now) == [];
    assert Fresh([a], now) == (if now - a < WINDOW_MS then [a] else []);
  }

  lemma TwoAdmitted(key: string, a: int, b: int)
    requires a <= b < a + WINDOW_MS
    ensures NaiveRun([Event(key, 2, a), Event(key, 2, b)]).1 == map[key := [a, b]]
  {
    var run := [Event(key, 2, a), Event(key, 2, b)];
    assert run[..1] == [run[0]] && run[..1][..0] == [];
    assert NaiveRun([]).1 == map[];
    assert [] + [a] == [a] && [a] + [b] == [a, b] && [a][..0] == [];
    assert NaiveRun([run[0]]).1 == map[key := [a]];
    assert Fresh([], b) == [];
    assert Fresh([a], b) == [a];
  }

  /** A limit lowered from two to one: the hint is half a minute, and after it the key is still refused. */
  lemma LoweredLimitHint(key: string, start: int)
    ensures var history := NaiveRun([Event(key, 2, start), Event(key, 2, start + 30_000)]).1;
      && NaiveF(history, key, 1, start + 30_000).0 == Refused(30)
      && NaiveF(history, key, 1, start + 60_000).0.Refused?
      && LeastWait(history, key, 1, start + 30_000, 60)
  {
    TwoAdmitted(key, start, start + 30_000);
    LoweredLimit(NaiveRun([Event(key, 2, start), Event(key, 2, start + 30_000)]).1, key, start);
  }

  lemma LoweredLimit(history: map<string, Stamps>, key: string, start: int)
    requires Of(history, key) == [start, start + 30_000]
    ensures NaiveF(history, key, 1, start + 30_000).0 == Refused(30)
    ensures NaiveF(history, key, 1, start + 60_000).0.Refused?
    ensures LeastWait(history, key, 1, start + 30_000, 60)
  {
    var live := [start, start + 30_000];
    TwoFresh(live, start, start + 30_000, start + 30_000);
    TwoFresh(live, start, start + 30_000, start + 60_000);
    assert Due(live, 1) == start + 30_000;
    DueIsLeastWait(history, key, 1, start + 30_000);
  }

  lemma FewLive(es: seq<Event>, limit: int, now: int)
    requires limit > 0 && EachFits(es) && forall i | 0 <= i < |es| :: es[i].limit == limit && es[i].now <= now
    requires Ordered(es)
    ensures |Fresh(Times(es), now)| <= limit
    ensures Sorted(Times(es)) && forall x | x in Times(es) :: x <= now
  {
    if es != [] {
      var n := |es| - 1;
      assert Times(es) == Times(es[..n]) + [es[n].now];
      FreshAppend(Times(es[..n]), es[n].now, now);
      FreshShrinks(Times(es[..n]), es[n].now, now);
    }
  }

  lemma {:induction false} FreshShrinks(s: Stamps, t: int, now: int)
    requires t <= now
    ensures |Fresh(s, now)| <= |Fresh(s, t)|
  {
    if s != [] { FreshShrinks(s[..|s| - 1], t, now); }
  }

  lemma HintRange(stamp: int, now: int)
    requires stamp <= now && now - stamp < WINDOW_MS
    ensures 1 <= RetryAfter(stamp, now) <= 60
  {
  }

  lemma HintLeast(stamp: int, now: int, x: nat)
    requires stamp <= now && now - stamp < WINDOW_MS
    ensures now + 1000 * x - stamp >= WINDOW_MS <==> x >= RetryAfter(stamp, now)
  {
  }

  // ----- the limiter as an object -----

  class AdminRateLimiter {
    var hits: map<string, Stamps>
    /** Every admission since the last reset, and the time of the last check. */
    ghost var history: map<string, Stamps>
    ghost var clock: int

    ghost predicate Valid()
      reads this
    {
      Agree(hits, history, clock)
    }

    constructor (ghost now: int)
      ensures Valid() && history == map[] && clock == now
    {
      hits, history, clock := map[], map[], now;
    }

    /** The verdict, and the new history, are those of the naive limiter. */
    method Check(key: string, limit: int, now: int) returns (verdict: Verdict)
      requires Valid() && clock <= now
      modifies this
      ensures Valid() && clock == now
      ensures verdict == NaiveF(old(history), key, limit, now).0
      ensures history == NaiveF(old(history), key, limit, now).1
      ensures hits == CheckF(old(hits), key, limit, now).1
    {
      CheckRefinesNaive(hits, history, clock, key, limit, now);
      AgreeLater(hits, history, clock, now);
      history, clock := NaiveF(history, key, limit, now).1, now;
      if limit <= 0 { return Admitted; }
      if |hits| > MAX_TRACKED { PruneAll(now); }
      var stamps := if key in hits then hits[key] else [];
      var alive := Fresh(stamps, now);
      if |alive| >= limit {
        hits := hits[key := alive];
        return Refused(RetryAfter(alive[0], now));
      }
      hits := hits[key := alive + [now]];
      return Admitted;
    }

    /** The review of the map: each list filtered in turn, emptied keys deleted. */
    method PruneAll(now: int)
      modifies this`hits
      ensures hits == Prune(old(hits), now)
    {
      var left := hits.Keys;
      while left != {}
        invariant left <= old(hits).Keys
        invariant forall k | k in left :: k in hits && hits[k] == old(hits)[k]
        invariant hits.Keys <= old(hits).Keys
        invariant forall k | k in old(hits) && k !in left ::
                    if Fresh(old(hits)[k], now) == [] then k !in hits else k in hits && hits[k] == Fresh(old(hits)[k], now)
        decreases |left|
      {
        var key :| key in left;
        var alive := Fresh(hits[key], now);
        if |alive| == 0 { hits := hits - {key}; } else { hits := hits[key := alive]; }
        left := left - {key};
      }
      assert hits.Keys == Prune(old(hits), now).Keys;
    }

    method Reset()
      requires Valid()
      modifies this
      ensures Valid() && history == map[] && hits == map[] && clock == old(clock)
    {
      hits, history := map[], map[];
    }
  }
}
