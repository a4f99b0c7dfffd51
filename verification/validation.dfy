/**
 * The form validation of `App._newWorkout`: the two helper predicates `validInputs`
 * and `allPositive`, and the rule each activity applies with them.
 */
module Validation {
  import opened JsNumbers

  /** `validInputs(...inputs)`: every input is a finite number. */
  predicate ValidInputs(inputs: seq<JsNumber>) {
    forall i :: 0 <= i < |inputs| ==> IsFinite(inputs[i])
  }

  /** `allPositive(...inputs)`: every input is greater than zero. */
  predicate AllPositive(inputs: seq<JsNumber>) {
    forall i :: 0 <= i < |inputs| ==> IsPositive(inputs[i])
  }

  /** The running rule: distance, duration and cadence all finite and all positive. */
  function RunningAccepted(distance: JsNumber, duration: JsNumber, cadence: JsNumber): (ok: bool)
    ensures ok <==> (distance.Finite? && distance.value > 0.0
                     && duration.Finite? && duration.value > 0.0
                     && cadence.Finite? && cadence.value > 0.0)
  {
    var inputs := [distance, duration, cadence];
    assert inputs[0] == distance && inputs[1] == duration && inputs[2] == cadence;
    ValidInputs(inputs) && AllPositive(inputs)
  }

  /**
   * The cycling rule: all three values finite, but only distance and duration positive;
   * the elevation gain may be zero or negative.
   */
  function CyclingAccepted(distance: JsNumber, duration: JsNumber, elevation: JsNumber): (ok: bool)
    ensures ok <==> (distance.Finite? && distance.value > 0.0
                     && duration.Finite? && duration.value > 0.0
                     && elevation.Finite?)
  {
    var inputs := [distance, duration, elevation];
    var positives := [distance, duration];
    assert inputs[0] == distance && inputs[1] == duration && inputs[2] == elevation;
    assert positives[0] == distance && positives[1] == duration;
    ValidInputs(inputs) && AllPositive(positives)
  }

  /** Whatever passes the running rule passes the cycling rule with the same numbers. */
  lemma RunningRuleIsStricter(distance: JsNumber, duration: JsNumber, extra: JsNumber)
    ensures RunningAccepted(distance, duration, extra) ==> CyclingAccepted(distance, duration, extra)
  {
  }

  /**
   * The asymmetry: for valid distance and duration, a non-positive finite value is
   * accepted as an elevation gain and rejected as a cadence.
   */
  lemma NonPositiveExtraAsymmetry(distance: JsNumber, duration: JsNumber, v: real)
    requires distance.Finite? && distance.value > 0.0
    requires duration.Finite? && duration.value > 0.0
    requires v <= 0.0
    ensures CyclingAccepted(distance, duration, Finite(v))
    ensures !RunningAccepted(distance, duration, Finite(v))
  {
  }

  /** An infinite value passes `allPositive` but never `validInputs`, so both rules reject it. */
  lemma InfinityRejected(distance: JsNumber, duration: JsNumber, extra: JsNumber)
    requires distance == Infinity || duration == Infinity || extra == Infinity
    ensures !RunningAccepted(distance, duration, extra)
    ensures !CyclingAccepted(distance, duration, extra)
  {
  }
}
