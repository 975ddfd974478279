/** The retry loop shared by `process_v3_prompt` and
    `process_question_v1_v2`: at most `r` attempts, the first at temperature
    0.01 and each failed one raising it by 0.15, stopping right after the
    first attempt that does not raise. */
module Elicitation {
  import opened Wrappers

  const InitialTemperature: real := 0.01
  const TemperatureStep: real := 0.15

  /** The temperature passed to inference on attempt `k` (counted from 0):
      `temp` starts at 0.01 and every caught exception adds 0.15. Real
      arithmetic stands for the source's floats. */
  function Temperature(k: nat): real
  {
    InitialTemperature + TemperatureStep * k as real
  }

  /** How the loop ended: the number of attempts made and the value of the
      attempt that did not raise, if there was one. */
  datatype Elicited<T> = Elicited(attempts: nat, value: Option<T>)

  /** `while tries < r and not success: try ... except: tries += 1`, entered
      with `tries == k`; `attempt(j)` is what attempt `j` does (inference,
      then whatever else the body runs before `success = True`). */
  function Elicit<T>(r: int, attempt: nat -> Attempt<T>, k: nat): Elicited<T>
    decreases r - k
  {
    if r <= k then Elicited(k, None)
    else
      match attempt(k)
      case Returned(v) => Elicited(k + 1, Some(v))
      case Raised => Elicit(r, attempt, k + 1)
  }

  /** The loop makes at most `r` attempts, and none when `r <= 0`. */
  lemma {:induction false} ElicitBounds<T>(r: int, attempt: nat -> Attempt<T>, k: nat)
    ensures var e := Elicit(r, attempt, k);
      && k <= e.attempts
      && (r <= k ==> e.attempts == k)
      && (k < r ==> e.attempts <= r)
    decreases r - k
  {
    if k < r && attempt(k).Raised? {
      ElicitBounds(r, attempt, k + 1);
    }
  }

  /** A success is the value of the last attempt made, and every attempt
      before it raised: the loop stops right after the first attempt that
      does not raise. */
  lemma {:induction false} ElicitStopsAtFirstSuccess<T>(r: int, attempt: nat -> Attempt<T>, k: nat)
    ensures var e := Elicit(r, attempt, k);
      e.value.Some? ==>
        && k < e.attempts <= r
        && attempt(e.attempts - 1) == Returned(e.value.value)
        && forall j :: k <= j < e.attempts - 1 ==> attempt(j).Raised?
    decreases r - k
  {
    if k < r && attempt(k).Raised? {
      ElicitStopsAtFirstSuccess(r, attempt, k + 1);
    }
  }

  /** A failure means all `r` attempts were made and every one raised. */
  lemma {:induction false} ElicitExhausted<T>(r: int, attempt: nat -> Attempt<T>, k: nat)
    ensures var e := Elicit(r, attempt, k);
      e.value.None? ==>
        && e.attempts == (if r <= k then k else r)
        && forall j :: k <= j < r ==> attempt(j).Raised?
    decreases r - k
  {
    if k < r && attempt(k).Raised? {
      ElicitExhausted(r, attempt, k + 1);
    }
  }

  /** Conversely, when every attempt raises the loop makes exactly `r`
      attempts and fails. */
  lemma {:induction false} ElicitAllRaise<T>(r: int, attempt: nat -> Attempt<T>, k: nat)
    requires forall j :: k <= j < r ==> attempt(j).Raised?
    ensures Elicit(r, attempt, k) == Elicited(if r <= k then k else r, None)
    decreases r - k
  {
    if k < r {
      ElicitAllRaise(r, attempt, k + 1);
    }
  }

  /** When attempt `j < r` is the first that does not raise, the loop makes
      `j + 1` attempts and succeeds with its value. */
  lemma {:induction false} ElicitFirstSuccess<T>(r: int, attempt: nat -> Attempt<T>, k: nat, j: nat)
    requires k <= j < r
    requires attempt(j).Returned?
    requires forall i :: k <= i < j ==> attempt(i).Raised?
    ensures Elicit(r, attempt, k) == Elicited(j + 1, Some(attempt(j).value))
    decreases j - k
  {
    if k < j {
      ElicitFirstSuccess(r, attempt, k + 1, j);
    }
  }
}
