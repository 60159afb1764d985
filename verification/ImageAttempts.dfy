/** The attempts for one recipe picture: the first good one, else the least flat of those well framed. */
module ImageAttempts {
  import opened Options

  const SEEDS: seq<nat> := [99, 4242, 777, 1234, 2024, 31337]
  const MAX_ATTEMPTS: nat := 4
  const MIN_ANGLE_RATIO := 0.55

  /** A check of one picture; the ratio is absent when the plate's edge is too uncertain to measure. */
  datatype Evaluation = Evaluation(framingOk: bool, angleRatio: Option<real>)

  /** What one generation and its check gave; an error ends the whole recipe. */
  datatype Try = Evaluated(ev: Evaluation) | Thrown

  datatype Attempt = Attempt(seed: nat, ev: Evaluation)

  /** `weak` marks a picture taken although its angle is too flat. */
  datatype Outcome = Picture(seed: nat, ev: Evaluation, weak: bool) | NoneFramed | Error

  predicate AngleOk(ev: Evaluation)
  {
    ev.angleRatio.None? || ev.angleRatio.value >= MIN_ANGLE_RATIO
  }

  predicate Good(t: Try)
  {
    t.Evaluated? && t.ev.framingOk && AngleOk(t.ev)
  }

  predicate Framed(t: Try)
  {
    t.Evaluated? && t.ev.framingOk
  }

  function Ratio(ev: Evaluation): real
  {
    if ev.angleRatio.Some? then ev.angleRatio.value else 0.0
  }

  /** The attempt that ends the loop early, by being good or by an error. */
  predicate Ends(t: Try)
  {
    Good(t) || t.Thrown?
  }

  /** At least as good as every other framed try, and strictly better than the earlier ones. */
  predicate Best(tries: seq<Try>, n: nat, k: nat)
    requires n <= |tries|
  {
    && k < n && Framed(tries[k])
    && (forall j | 0 <= j < n :: Framed(tries[j]) ==> Ratio(tries[j].ev) <= Ratio(tries[k].ev))
    && (forall j | 0 <= j < k :: Framed(tries[j]) ==> Ratio(tries[j].ev) < Ratio(tries[k].ev))
  }

  /**
    Exactly one case applies: the first try that is good or throws decides, with one attempt recorded for
    every try up to it; if there is none, the best framed try of all is taken and marked weak; if nothing is
    framed, the recipe has failed.
  */
  method ProcessRecipe(tries: seq<Try>) returns (outcome: Outcome, attempts: seq<Attempt>)
    requires |tries| == MAX_ATTEMPTS
    ensures |attempts| <= |tries|
    ensures forall j | 0 <= j < |attempts| :: tries[j] == Evaluated(attempts[j].ev) && attempts[j].seed == SEEDS[j]
    ensures forall j | 0 <= j < |attempts| - 1 :: !Ends(tries[j])
    ensures outcome.Error? <==>
              (|attempts| < |tries| && tries[|attempts|].Thrown? && forall j | 0 <= j < |attempts| :: !Ends(tries[j]))
    ensures outcome.Picture? && !outcome.weak <==> exists k | 0 <= k < |tries| ::
              Good(tries[k]) && |attempts| == k + 1 && outcome == Picture(SEEDS[k], tries[k].ev, false)
    ensures outcome.Picture? && outcome.weak <==>
              (|attempts| == |tries| && (forall j | 0 <= j < |tries| :: !Ends(tries[j]))
               && exists k | 0 <= k < |tries| :: Best(tries, |tries|, k) && outcome == Picture(SEEDS[k], tries[k].ev, true))
    ensures outcome.NoneFramed? <==> forall j | 0 <= j < |tries| :: tries[j].Evaluated? && !Framed(tries[j])
  {
    attempts := [];
    var best: Option<nat> := None;
    var i := 0;
    while i < MAX_ATTEMPTS
      invariant i <= MAX_ATTEMPTS && |attempts| == i
      invariant forall j | 0 <= j < i :: tries[j] == Evaluated(attempts[j].ev) && attempts[j].seed == SEEDS[j]
      invariant forall j | 0 <= j < i :: !Ends(tries[j])
      invariant best.None? <==> forall j | 0 <= j < i :: !Framed(tries[j])
      invariant best.Some? ==> Best(tries, i, best.value)
    {
      if tries[i].Thrown? { return Error, attempts; }
      var ev := tries[i].ev;
      attempts := attempts + [Attempt(SEEDS[i], ev)];
      if ev.framingOk {
        if AngleOk(ev) {
          assert Good(tries[i]);
          return Picture(SEEDS[i], ev, false), attempts;
        }
        if best.None? || Ratio(ev) > Ratio(tries[best.value].ev) {
          best := Some(i);
        }
      }
      i := i + 1;
    }
    if best.Some? {
      return Picture(SEEDS[best.value], tries[best.value].ev, true), attempts;
    }
    return NoneFramed, attempts;
  }
}
