/**
  The guard of all admin routes: an ordered decision that charges the limiter only once a request has
  passed the gate and the same-origin JSON check; and the gate's per-request memo.
*/
module AdminGuard {
  import opened Options
  import opened RateLimiter

  datatype SessionMode = NoSession | Optional | Required

  datatype Session = Session(adminUserId: string, mustReenroll: bool, permitted: bool, stepUpValid: bool)

  /**
    What the guard reads of a request. The gate's answer and the session are results of code outside the
    model; headers are given trimmed and in lower case, the method in upper case.
  */
  datatype Request = Request(
    ip: Option<string>,
    gatePasses: bool,
    verb: string,
    site: Option<string>,
    contentType: Option<string>,
    mime: string,
    positiveLength: bool,
    transferEncoding: bool,
    mode: SessionMode,
    session: Option<Session>,
    allowReenroll: bool,
    needsPermission: bool,
    needsStepUp: bool)

  datatype Answer =
    | HiddenNotFound | CrossSite | UnsupportedMediaType | TooManyRequests(retryAfterSeconds: int)
    | NotAllowed | StepUpRequired | Granted

  datatype Limits = Limits(admin: int, auth: int)

  const SAFE_METHODS := {"GET", "HEAD", "OPTIONS"}

  // ----- what the guard is to decide by -----

  predicate Present(header: Option<string>)
  {
    header.Some? && header.value != ""
  }

  predicate Safe(r: Request)
  {
    r.verb == "GET" || r.verb == "HEAD" || r.verb == "OPTIONS"
  }

  /** A request that changes something and says that it comes from another origin. */
  predicate FromElsewhere(r: Request)
  {
    !Safe(r) && Present(r.site) && r.site.value != "same-origin"
  }

  /** It has a body, or announces a type, and that is not JSON. */
  predicate WrongBody(r: Request)
  {
    && !Safe(r)
    && (Present(r.contentType) || r.positiveLength || r.transferEncoding)
    && !(r.contentType.Some? && r.mime == "application/json")
  }

  /** The request gets as far as the limiter, and is counted. */
  predicate ReachesLimiter(r: Request)
  {
    r.gatePasses && !FromElsewhere(r) && !WrongBody(r)
  }

  predicate HasSession(r: Request)
  {
    !r.mode.NoSession? && r.session.Some?
  }

  function Address(r: Request): string
  {
    if r.ip.Some? then r.ip.value else "unknown"
  }

  /** Counted together: by the account where there is a session, else by the address. */
  predicate SameClient(a: Request, b: Request)
  {
    if HasSession(a) then HasSession(b) && a.session.value.adminUserId == b.session.value.adminUserId
    else !HasSession(b) && Address(a) == Address(b)
  }

  function Allowance(r: Request, limits: Limits): int
  {
    if HasSession(r) then limits.admin else limits.auth
  }

  // ----- the guard as written -----

  /** `assertSameOriginJson`: the error it throws, if any. An empty header counts as absent. */
  function SameOriginJson(r: Request): Option<Answer>
  {
    if r.verb in SAFE_METHODS then None
    else if r.site.Some? && r.site.value != "" && r.site.value != "same-origin" then Some(CrossSite)
    else
      var noType := r.contentType.None? || r.contentType.value == "";
      var hasBody := r.positiveLength || r.transferEncoding;
      if noType && !hasBody then None
      else if (if r.contentType.None? then "" else r.mime) != "application/json" then Some(UnsupportedMediaType)
      else None
  }

  function SessionOf(r: Request): Option<Session>
  {
    if r.mode.NoSession? then None else r.session
  }

  function LimiterKey(r: Request): string
  {
    match SessionOf(r)
    case Some(s) => "admin:" + s.adminUserId
    case None => "ip:" + (if r.ip.Some? then r.ip.value else "unknown")
  }

  function LimitFor(r: Request, limits: Limits): int
  {
    if SessionOf(r).Some? then limits.admin else limits.auth
  }

  /** What is left to decide once the limiter has admitted the request. */
  function AfterLimiter(r: Request): Answer
  {
    match SessionOf(r)
    case None => if r.mode.Required? then HiddenNotFound else Granted
    case Some(s) =>
      if s.mustReenroll && !r.allowReenroll then NotAllowed
      else if r.needsPermission && !s.permitted then HiddenNotFound
      else if r.needsStepUp && !s.stepUpValid then StepUpRequired
      else Granted
  }

  /** `canActivate` at time `now`. */
  function GuardF(hits: map<string, Stamps>, r: Request, limits: Limits, now: int): (Answer, map<string, Stamps>)
  {
    if !r.gatePasses then (HiddenNotFound, hits)
    else
      match SameOriginJson(r)
      case Some(error) => (error, hits)
      case None =>
        var (verdict, hits') := CheckF(hits, LimiterKey(r), LimitFor(r, limits), now);
        match verdict
        case Refused(seconds) => (TooManyRequests(seconds), hits')
        case Admitted => (AfterLimiter(r), hits')
  }

  // ----- whole runs -----

  datatype Arrival = Arrival(request: Request, now: int)

  function GuardRun(run: seq<Arrival>, limits: Limits): (seq<Answer>, map<string, Stamps>)
  {
    if run == [] then ([], map[])
    else
      var n := |run| - 1;
      var (answers, hits) := GuardRun(run[..n], limits);
      var (a, hits') := GuardF(hits, run[n].request, limits, run[n].now);
      (answers + [a], hits')
  }

  /** The arrivals that reach the limiter, in order. */
  function Charged(run: seq<Arrival>): seq<Arrival>
  {
    if run == [] then []
    else
      var n := |run| - 1;
      if ReachesLimiter(run[n].request) then Charged(run[..n]) + [run[n]] else Charged(run[..n])
  }

  /** The answers to those arrivals. */
  function ChargedAnswers(run: seq<Arrival>, answers: seq<Answer>): seq<Answer>
    requires |run| == |answers|
  {
    if run == [] then []
    else
      var n := |run| - 1;
      var before := ChargedAnswers(run[..n], answers[..n]);
      if ReachesLimiter(run[n].request) then before + [answers[n]] else before
  }

  lemma {:induction false} GuardRunLength(run: seq<Arrival>, limits: Limits)
    ensures |GuardRun(run, limits).0| == |run|
  {
    if run != [] { GuardRunLength(run[..|run| - 1], limits); }
  }

  /**
    Requests that fail the gate or the same-origin check leave no trace: without them every other request
    gets the same answer and the limiter ends in the same state.
  */
  lemma {:induction false} RefusedTrafficIsInvisible(run: seq<Arrival>, limits: Limits)
    ensures |GuardRun(run, limits).0| == |run|
    ensures ChargedAnswers(run, GuardRun(run, limits).0) == GuardRun(Charged(run), limits).0
    ensures GuardRun(run, limits).1 == GuardRun(Charged(run), limits).1
  {
    GuardRunLength(run, limits);
    if run != [] {
      var n := |run| - 1;
      RefusedTrafficIsInvisible(run[..n], limits);
      assert GuardRun(run, limits).0[..n] == GuardRun(run[..n], limits).0;
      if ReachesLimiter(run[n].request) {
        var before := Charged(run[..n]);
        assert (before + [run[n]])[..|before|] == before;
      }
    }
  }

  // ----- one client's answers -----

  /** The limiter checks a run makes, in order. */
  function Checks(run: seq<Arrival>, limits: Limits): seq<Event>
  {
    if run == [] then []
    else
      var n := |run| - 1;
      var r := run[n].request;
      if ReachesLimiter(r) then Checks(run[..n], limits) + [Event(LimiterKey(r), LimitFor(r, limits), run[n].now)]
      else Checks(run[..n], limits)
  }

  /** The check that is made for a counted request: whom it is charged to, and which limit. */
  function CheckFor(a: Arrival, limits: Limits): Event
  {
    Event(if HasSession(a.request) then "admin:" + a.request.session.value.adminUserId else "ip:" + Address(a.request),
          Allowance(a.request, limits), a.now)
  }

  /** The requests that reach the limiter, their checks and their answers, one by one. */
  ghost predicate InStep(charged: seq<Arrival>, limits: Limits, checks: seq<Event>, verdicts: seq<Verdict>, answers: seq<Answer>)
  {
    && |charged| == |checks| == |verdicts| == |answers|
    && forall i | 0 <= i < |charged| ::
         checks[i] == CheckFor(charged[i], limits) && Follows(charged[i].request, verdicts[i], answers[i])
  }

  lemma InStepMore(charged: seq<Arrival>, limits: Limits, checks: seq<Event>, verdicts: seq<Verdict>, answers: seq<Answer>,
                   a: Arrival, v: Verdict, answer: Answer)
    requires InStep(charged, limits, checks, verdicts, answers) && Follows(a.request, v, answer)
    ensures InStep(charged + [a], limits, checks + [CheckFor(a, limits)], verdicts + [v], answers + [answer])
  {
  }

  /**
    The guard drives the limiter through exactly the checks of the requests that reach it, and each answer follows
    from the verdict of its own check.
  */
  lemma {:induction false} GuardDrivesLimiter(run: seq<Arrival>, limits: Limits)
    ensures GuardRun(run, limits).1 == Run(Checks(run, limits)).1
    ensures InStep(Charged(run), limits, Checks(run, limits), Run(Checks(run, limits)).0, GuardRun(Charged(run), limits).0)
  {
    RefusedTrafficIsInvisible(run, limits);
    if run != [] {
      var n := |run| - 1;
      GuardDrivesLimiter(run[..n], limits);
      RefusedTrafficIsInvisible(run[..n], limits);
      if ReachesLimiter(run[n].request) { LastFollows(run, limits); }
    }
  }

  /** The answer is the one that the verdict leaves. */
  predicate Follows(r: Request, v: Verdict, a: Answer)
  {
    Decided(r, v.Refused?, a) && (v.Refused? ==> a == TooManyRequests(v.retryAfterSeconds))
  }

  lemma LastFollows(run: seq<Arrival>, limits: Limits)
    requires run != [] && ReachesLimiter(run[|run| - 1].request)
    requires var before, checks := Charged(run[..|run| - 1]), Checks(run[..|run| - 1], limits);
      && InStep(before, limits, checks, Run(checks).0, GuardRun(before, limits).0)
      && GuardRun(before, limits).1 == Run(checks).1
    ensures InStep(Charged(run), limits, Checks(run, limits), Run(Checks(run, limits)).0, GuardRun(Charged(run), limits).0)
  {
    var n := |run| - 1;
    var before, checks := Charged(run[..n]), Checks(run[..n], limits);
    var r, now := run[n].request, run[n].now;
    ChargedAs(r, limits);
    assert (before + [run[n]])[..|before|] == before;
    assert (checks + [CheckFor(run[n], limits)])[..|checks|] == checks;
    var hits := Run(checks).1;
    GuardDecides(hits, r, limits, now);
    InStepMore(before, limits, checks, Run(checks).0, GuardRun(before, limits).0, run[n],
               CheckF(hits, LimiterKey(r), LimitFor(r, limits), now).0, GuardF(hits, r, limits, now).0);
  }

  lemma {:induction false} ChecksOrdered(run: seq<Arrival>, limits: Limits)
    requires forall i, j | 0 <= i < j < |run| :: run[i].now <= run[j].now
    ensures Ordered(Checks(run, limits))
    ensures forall e | e in Checks(run, limits) :: exists i | 0 <= i < |run| :: run[i].now == e.now
  {
    if run != [] {
      var n := |run| - 1;
      ChecksOrdered(run[..n], limits);
      var before := Checks(run[..n], limits);
      forall k | 0 <= k < |before| ensures before[k].now <= run[n].now {
        assert before[k] in before;
        var i :| 0 <= i < n && run[..n][i].now == before[k].now;
        assert run[i].now <= run[n].now;
      }
      forall e | e in before ensures exists i | 0 <= i < |run| :: run[i].now == e.now {
        var i :| 0 <= i < n && run[..n][i].now == e.now;
        assert run[i].now == e.now;
      }
    }
  }

  /** A client's limiter verdicts are those of a run in which only its own charged requests arrive. */
  lemma ClientsAreIsolated(run: seq<Arrival>, limits: Limits, key: string)
    requires forall i, j | 0 <= i < j < |run| :: run[i].now <= run[j].now
    ensures var checks := Checks(run, limits);
      |Run(checks).0| == |checks| && VerdictsOf(checks, Run(checks).0, key) == Run(Only(checks, key)).0
  {
    ChecksOrdered(run, limits);
    KeysAreIsolated(Checks(run, limits), key);
  }

  // ----- every answer, from the request and the answers before -----

  /** Nothing but the limit stands between a counted request and its handler. */
  predicate Cleared(r: Request)
  {
    if HasSession(r) then
      var s := r.session.value;
      (s.mustReenroll ==> r.allowReenroll) && (r.needsPermission ==> s.permitted) && (r.needsStepUp ==> s.stepUpValid)
    else !r.mode.Required?
  }

  /** Which answer it is, and in which order the refusals come; `full` says that the client's limit is used up. */
  predicate Decided(r: Request, full: bool, a: Answer)
  {
    var known := ReachesLimiter(r) && !full && HasSession(r);
    && (a.Granted? <==> ReachesLimiter(r) && !full && Cleared(r))
    && (a.CrossSite? <==> r.gatePasses && FromElsewhere(r))
    && (a.UnsupportedMediaType? <==> r.gatePasses && !FromElsewhere(r) && WrongBody(r))
    && (a.TooManyRequests? <==> ReachesLimiter(r) && full)
    && (a.NotAllowed? <==> known && r.session.value.mustReenroll && !r.allowReenroll)
    && (a.StepUpRequired? <==>
         && known && (r.session.value.mustReenroll ==> r.allowReenroll)
         && (r.needsPermission ==> r.session.value.permitted) && r.needsStepUp && !r.session.value.stepUpValid)
    && (a.HiddenNotFound? <==>
         || !r.gatePasses
         || (ReachesLimiter(r) && !full && !HasSession(r) && r.mode.Required?)
         || (known && (r.session.value.mustReenroll ==> r.allowReenroll) && r.needsPermission && !r.session.value.permitted))
  }

  /** An earlier request of the same client that was let through less than a minute ago. */
  predicate Uses(run: seq<Arrival>, answers: seq<Answer>, j: nat, r: Request, now: int)
  {
    && j < |run| == |answers| && ReachesLimiter(run[j].request) && SameClient(run[j].request, r)
    && !answers[j].TooManyRequests? && now - run[j].now < 60_000
  }

  ghost function Used(run: seq<Arrival>, answers: seq<Answer>, i: nat, r: Request, now: int): set<nat>
  {
    set j: nat | j < i && Uses(run, answers, j, r, now)
  }

  ghost predicate Full(run: seq<Arrival>, answers: seq<Answer>, i: nat, limits: Limits)
    requires i < |run|
  {
    var r := run[i].request;
    Allowance(r, limits) > 0 && |Used(run, answers, i, r, run[i].now)| >= Allowance(r, limits)
  }

  lemma UsedNext(run: seq<Arrival>, answers: seq<Answer>, i: nat, r: Request, now: int)
    ensures |Used(run, answers, 0, r, now)| == 0
    ensures |Used(run, answers, i + 1, r, now)|
            == |Used(run, answers, i, r, now)| + if Uses(run, answers, i, r, now) then 1 else 0
  {
    assert Used(run, answers, 0, r, now) == {};
    assert Used(run, answers, i + 1, r, now) == Used(run, answers, i, r, now) + if Uses(run, answers, i, r, now) then {i} else {};
  }

  /** What is charged, and for whom. */
  lemma ChargedAs(r: Request, limits: Limits)
    ensures ReachesLimiter(r) <==> r.gatePasses && SameOriginJson(r).None?
    ensures LimiterKey(r) == if HasSession(r) then "admin:" + r.session.value.adminUserId else "ip:" + Address(r)
    ensures LimitFor(r, limits) == Allowance(r, limits)
  {
  }

  lemma SameKey(a: Request, b: Request)
    ensures LimiterKey(a) == LimiterKey(b) <==> SameClient(a, b)
  {
    var x, y := LimiterKey(a), LimiterKey(b);
    if HasSession(a) && HasSession(b) && x == y {
      assert x[6..] == a.session.value.adminUserId && y[6..] == b.session.value.adminUserId;
    }
    if !HasSession(a) && !HasSession(b) && x == y {
      assert x[3..] == Address(a) && y[3..] == Address(b);
    }
    assert HasSession(a) ==> x[0] == 'a';
    assert HasSession(b) ==> y[0] == 'a';
    assert !HasSession(a) ==> x[0] == 'i';
    assert !HasSession(b) ==> y[0] == 'i';
  }

  /** One request, when the limiter's verdict is known. */
  lemma GuardDecides(hits: map<string, Stamps>, r: Request, limits: Limits, now: int)
    ensures Decided(r, CheckF(hits, LimiterKey(r), LimitFor(r, limits), now).0.Refused?, GuardF(hits, r, limits, now).0)
  {
  }

  lemma {:induction false} GuardStep(run: seq<Arrival>, limits: Limits, i: nat)
    requires i < |run|
    ensures |GuardRun(run, limits).0| == |run|
    ensures var (a, hits) := GuardF(GuardRun(run[..i], limits).1, run[i].request, limits, run[i].now);
      GuardRun(run, limits).0[i] == a && GuardRun(run[..i + 1], limits).1 == hits
  {
    var n := |run| - 1;
    GuardRunLength(run, limits);
    GuardRunLength(run[..n], limits);
    if i < n {
      GuardStep(run[..n], limits, i);
      assert run[..n][..i] == run[..i] && run[..n][..i + 1] == run[..i + 1];
    } else {
      assert run[..i + 1] == run;
    }
  }

  /** The history of the checks made before the `i`-th request arrives. */
  ghost function HistoryAt(run: seq<Arrival>, limits: Limits, i: nat): map<string, Stamps>
    requires i <= |run|
  {
    NaiveRun(Checks(run[..i], limits)).1
  }

  ghost predicate InOrder(run: seq<Arrival>)
  {
    forall i, j | 0 <= i < j < |run| :: run[i].now <= run[j].now
  }

  /** The limiter agrees with that history. */
  lemma HitsAgree(run: seq<Arrival>, limits: Limits, i: nat)
    requires InOrder(run) && i < |run|
    ensures Agree(GuardRun(run[..i], limits).1, HistoryAt(run, limits, i), run[i].now)
  {
    var checks := Checks(run[..i], limits);
    GuardDrivesLimiter(run[..i], limits);
    ChecksOrdered(run[..i], limits);
    RunRefinesNaive(checks);
    if checks != [] {
      var e := checks[|checks| - 1];
      assert e in checks;
      var k :| 0 <= k < i && run[..i][k].now == e.now;
      assert run[k].now <= run[i].now;
      AgreeLater(Run(checks).1, NaiveRun(checks).1, e.now, run[i].now);
    }
  }

  lemma HistoryNext(run: seq<Arrival>, limits: Limits, i: nat)
    requires i < |run|
    ensures var r := run[i].request;
      HistoryAt(run, limits, i + 1)
      == if ReachesLimiter(r) then NaiveF(HistoryAt(run, limits, i), LimiterKey(r), LimitFor(r, limits), run[i].now).1
         else HistoryAt(run, limits, i)
  {
    assert run[..i + 1][..i] == run[..i];
    ChargedAs(run[i].request, limits);
    var checks := Checks(run[..i], limits);
    var e := Event(LimiterKey(run[i].request), LimitFor(run[i].request, limits), run[i].now);
    assert (checks + [e])[..|checks|] == checks;
  }

  /** The verdict of a request's own check is that of the history. */
  lemma VerdictOf(run: seq<Arrival>, limits: Limits, i: nat)
    requires InOrder(run) && i < |run|
    ensures |GuardRun(run, limits).0| == |run|
    ensures var r := run[i].request;
      Decided(r, NaiveF(HistoryAt(run, limits, i), LimiterKey(r), LimitFor(r, limits), run[i].now).0.Refused?,
              GuardRun(run, limits).0[i])
  {
    var r := run[i].request;
    HitsAgree(run, limits, i);
    GuardStep(run, limits, i);
    CheckRefinesNaive(GuardRun(run[..i], limits).1, HistoryAt(run, limits, i), run[i].now, LimiterKey(r), LimitFor(r, limits),
                      run[i].now);
    GuardDecides(GuardRun(run[..i], limits).1, r, limits, run[i].now);
  }

  /** The live admissions of a client are its uses. */
  lemma {:induction false} LiveAreUses(run: seq<Arrival>, limits: Limits, i: nat, r: Request, now: int)
    requires InOrder(run) && i <= |run| && Allowance(r, limits) > 0
    ensures |Fresh(Of(HistoryAt(run, limits, i), LimiterKey(r)), now)| == |Used(run, GuardRun(run, limits).0, i, r, now)|
  {
    var answers := GuardRun(run, limits).0;
    if i == 0 {
      UsedNext(run, answers, 0, r, now);
    } else {
      var q := run[i - 1].request;
      LiveAreUses(run, limits, i - 1, r, now);
      UsedNext(run, answers, i - 1, r, now);
      HistoryNext(run, limits, i - 1);
      VerdictOf(run, limits, i - 1);
      SameKey(q, r);
      ChargedAs(q, limits);
      NaiveFresh(HistoryAt(run, limits, i - 1), Event(LimiterKey(q), LimitFor(q, limits), run[i - 1].now), LimiterKey(r), now);
    }
  }

  /**
    Every answer of every run, read off the request and the answers before it: the limit of a client is used up
    when as many of its requests were let through in the last minute; and the rest is decided in this order.
  */
  lemma AnswersExactly(run: seq<Arrival>, limits: Limits, i: nat)
    requires InOrder(run) && i < |run|
    ensures |GuardRun(run, limits).0| == |run|
    ensures Decided(run[i].request, Full(run, GuardRun(run, limits).0, i, limits), GuardRun(run, limits).0[i])
  {
    var r := run[i].request;
    VerdictOf(run, limits, i);
    ChargedAs(r, limits);
    if Allowance(r, limits) > 0 { LiveAreUses(run, limits, i, r, run[i].now); }
  }

  // ----- the gate's memo -----

  /** `req.adminGate ??= evaluate(req)`: the first answer is kept on the request, errors count as a refusal. */
  class GatedRequest<T(==)> {
    var adminGate: Option<Option<T>>
    ghost var evaluations: nat

    ghost predicate Valid()
      reads this
    {
      evaluations == if adminGate.Some? then 1 else 0
    }

    constructor ()
      ensures Valid() && adminGate.None?
    {
      adminGate, evaluations := None, 0;
    }

    /** `outcome` is what an evaluation would give now. */
    method Pass(outcome: Option<T>) returns (access: Option<T>)
      requires Valid()
      modifies this
      ensures Valid() && evaluations == 1 && adminGate == Some(access)
      ensures access == if old(adminGate).Some? then old(adminGate).value else outcome
    {
      if adminGate.None? {
        adminGate := Some(outcome);
        evaluations := evaluations + 1;
      }
      access := adminGate.value;
    }

    /** Middleware and guard, in either order and any number of times, all read the first evaluation. */
    method PassAll(outcomes: seq<Option<T>>) returns (answers: seq<Option<T>>)
      requires Valid() && adminGate.None?
      modifies this
      ensures Valid() && |answers| == |outcomes| && evaluations == (if outcomes == [] then 0 else 1)
      ensures forall i | 0 <= i < |answers| :: answers[i] == outcomes[0]
    {
      answers := [];
      var i := 0;
      while i < |outcomes|
        invariant 0 <= i <= |outcomes| == |outcomes| && |answers| == i && Valid()
        invariant i == 0 ==> adminGate.None?
        invariant i > 0 ==> adminGate == Some(outcomes[0])
        invariant forall j | 0 <= j < i :: answers[j] == outcomes[0]
      {
        var a := Pass(outcomes[i]);
        answers := answers + [a];
        i := i + 1;
      }
    }
  }

  /** The guard as it runs: the limiter object is charged at most once, and answers follow `GuardF`. */
  method CanActivate(limiter: AdminRateLimiter, r: Request, limits: Limits, now: int) returns (a: Answer)
    requires limiter.Valid() && limiter.clock <= now
    modifies limiter
    ensures limiter.Valid()
    ensures limiter.hits == GuardF(old(limiter.hits), r, limits, now).1
    ensures a == GuardF(old(limiter.hits), r, limits, now).0
    ensures !ReachesLimiter(r) ==> limiter.hits == old(limiter.hits) && limiter.history == old(limiter.history)
    ensures Decided(r, a.TooManyRequests?, a)
    ensures ReachesLimiter(r) ==>
              var key := if HasSession(r) then "admin:" + r.session.value.adminUserId else "ip:" + Address(r);
              var (verdict, history) := NaiveF(old(limiter.history), key, Allowance(r, limits), now);
              limiter.history == history && (a.TooManyRequests? <==> verdict.Refused?)
  {
    ChargedAs(r, limits);
    GuardDecides(limiter.hits, r, limits, now);
    if !r.gatePasses { return HiddenNotFound; }
    var error := SameOriginJson(r);
    if error.Some? { return error.value; }
    ghost var before := limiter.hits;
    CheckRefinesNaive(limiter.hits, limiter.history, limiter.clock, LimiterKey(r), LimitFor(r, limits), now);
    var verdict := limiter.Check(LimiterKey(r), LimitFor(r, limits), now);
    if verdict.Refused? { return TooManyRequests(verdict.retryAfterSeconds); }
    if r.mode.Required? && SessionOf(r).None? { return HiddenNotFound; }
    if SessionOf(r).None? { return Granted; }
    var s := SessionOf(r).value;
    if s.mustReenroll && !r.allowReenroll { return NotAllowed; }
    if r.needsPermission && !s.permitted { return HiddenNotFound; }
    if r.needsStepUp && !s.stepUpValid { return StepUpRequired; }
    return Granted;
  }
}
