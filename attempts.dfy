/**
 * Steps run one after another until the first that fails, as in the command
 * loops of `clean` and `ProcessAudioActions`: the failing step is attempted,
 * nothing after it is.
 */
module Attempts {
  /** The steps attempted: all of them up to and including the first failing one. */
  function RunUntilFailure<T>(steps: seq<T>, ok: T -> bool): (r: seq<T>)
    ensures |r| <= |steps|
    decreases |steps|
  {
    if steps == [] then []
    else [steps[0]] + (if ok(steps[0]) then RunUntilFailure(steps[1..], ok) else [])
  }

  /** Some step fails. */
  predicate SomeFails<T>(steps: seq<T>, ok: T -> bool)
    decreases |steps|
  {
    steps != [] && (!ok(steps[0]) || SomeFails(steps[1..], ok))
  }

  lemma RunCons<T>(s: T, rest: seq<T>, ok: T -> bool)
    ensures RunUntilFailure([s] + rest, ok) == [s] + (if ok(s) then RunUntilFailure(rest, ok) else [])
    ensures SomeFails([s] + rest, ok) == (!ok(s) || SomeFails(rest, ok))
  {
    assert ([s] + rest)[1..] == rest;
  }

  /** What is attempted is a prefix of the steps, never empty when there are steps, and every attempted step but the last succeeded. */
  lemma {:induction false} RunPrefix<T>(steps: seq<T>, ok: T -> bool)
    ensures var r := RunUntilFailure(steps, ok);
            r <= steps
            && (steps != [] ==> r != [])
            && forall i :: 0 <= i < |r| - 1 ==> ok(r[i])
    decreases |steps|
  {
    if steps != [] && ok(steps[0]) {
      var t := RunUntilFailure(steps[1..], ok);
      RunPrefix(steps[1..], ok);
      var r := [steps[0]] + t;
      assert steps == [steps[0]] + steps[1..];
      forall i | 0 <= i < |r| - 1 ensures ok(r[i]) {
        if i > 0 {
          assert r[i] == t[i - 1];
        }
      }
    }
  }

  /**
   * The run ends on a failing step exactly when some step fails; when none
   * does, every step is attempted, so stopping short means the last attempt failed.
   */
  lemma {:induction false} RunStops<T>(steps: seq<T>, ok: T -> bool)
    ensures var r := RunUntilFailure(steps, ok);
            (SomeFails(steps, ok) <==> r != [] && !ok(r[|r| - 1]))
            && (!SomeFails(steps, ok) ==> r == steps)
            && (|r| < |steps| ==> r != [] && !ok(r[|r| - 1]))
    decreases |steps|
  {
    if steps != [] && ok(steps[0]) {
      var t := RunUntilFailure(steps[1..], ok);
      RunStops(steps[1..], ok);
      RunPrefix(steps[1..], ok);
      var r := [steps[0]] + t;
      assert steps == [steps[0]] + steps[1..];
      if t != [] {
        assert r[|r| - 1] == t[|t| - 1];
      }
    }
  }
}
