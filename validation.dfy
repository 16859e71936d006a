/** The form check `_newWorkout` applies before it builds a workout. */
module Validation {

  import opened Wrappers

  /** A numeric form field after `+input.value`: `None` when it is not a
      finite number (NaN from text that does not parse, or an infinity). */
  type Field = Option<real>

  /** `validInput`: every input is a finite number. */
  predicate AllFinite(inputs: seq<Field>)
    ensures AllFinite(inputs) <==> None !in inputs
  {
    forall i :: 0 <= i < |inputs| ==> inputs[i].Some?
  }

  /** `checkNumberPositive`: every input is greater than zero. The guard
      only evaluates it after `validInput` has held, since `||` stops at
      the first failed check, so how it treats a non-finite input (here:
      as not positive) never shows. */
  predicate AllPositive(inputs: seq<Field>)
    ensures AllPositive(inputs) ==> AllFinite(inputs)
    ensures AllPositive(inputs) <==> forall x :: x in inputs ==> x.Some? && x.value > 0.0
  {
    forall i :: 0 <= i < |inputs| ==> inputs[i].Some? && inputs[i].value > 0.0
  }

  /** A submitted form, by the value of the type selector. */
  datatype Form =
    | RunningForm(distance: Field, duration: Field, cadence: Field)
    | CyclingForm(distance: Field, duration: Field, elevation: Field)

  /** The guard of `_newWorkout`: running checks all three inputs for both
      finiteness and positivity; cycling checks all three for finiteness
      but only distance and duration for positivity. */
  predicate Accepts(f: Form)
    ensures Accepts(f) ==> f.distance.Some? && f.duration.Some?
    ensures Accepts(f) ==> f.distance.value > 0.0 && f.duration.value > 0.0
  {
    match f
    case RunningForm(distance, duration, cadence) =>
      AllFinite([distance, duration, cadence]) && AllPositive([distance, duration, cadence])
    case CyclingForm(distance, duration, elevation) =>
      AllFinite([distance, duration, elevation]) && AllPositive([distance, duration])
  }

  /** A running form is accepted exactly when distance, duration and cadence
      are all finite and strictly positive. */
  lemma RunningAcceptedIff(distance: Field, duration: Field, cadence: Field)
    ensures Accepts(RunningForm(distance, duration, cadence)) <==>
              && distance.Some? && duration.Some? && cadence.Some?
              && distance.value > 0.0 && duration.value > 0.0 && cadence.value > 0.0
  {
    var inputs := [distance, duration, cadence];
    if AllFinite(inputs) {
      assert inputs[0].Some? && inputs[1].Some? && inputs[2].Some?;
      if AllPositive(inputs) {
        assert inputs[0].value > 0.0 && inputs[1].value > 0.0 && inputs[2].value > 0.0;
      }
    }
    if distance.Some? && duration.Some? && cadence.Some? {
      assert AllFinite(inputs);
      if distance.value > 0.0 && duration.value > 0.0 && cadence.value > 0.0 {
        assert AllPositive(inputs);
      }
    }
  }

  /** A cycling form is accepted exactly when all three inputs are finite
      and distance and duration are strictly positive: the elevation may be
      zero or negative. */
  lemma CyclingAcceptedIff(distance: Field, duration: Field, elevation: Field)
    ensures Accepts(CyclingForm(distance, duration, elevation)) <==>
              && distance.Some? && duration.Some? && elevation.Some?
              && distance.value > 0.0 && duration.value > 0.0
  {
    var inputs := [distance, duration, elevation];
    if AllFinite(inputs) {
      assert inputs[0].Some? && inputs[1].Some? && inputs[2].Some?;
      if AllPositive([distance, duration]) {
        assert [distance, duration][0].value > 0.0 && [distance, duration][1].value > 0.0;
      }
    }
    if distance.Some? && duration.Some? && elevation.Some? {
      assert AllFinite(inputs);
      if distance.value > 0.0 && duration.value > 0.0 {
        assert AllPositive([distance, duration]);
      }
    }
  }

  /** The asymmetry between the two kinds: with the same three numbers, a
      zero or negative third input is rejected for running (as a cadence)
      and accepted for cycling (as an elevation). */
  lemma NonPositiveThirdInput(distance: real, duration: real, third: real)
    requires distance > 0.0 && duration > 0.0 && third <= 0.0
    ensures !Accepts(RunningForm(Some(distance), Some(duration), Some(third)))
    ensures Accepts(CyclingForm(Some(distance), Some(duration), Some(third)))
  {
    RunningAcceptedIff(Some(distance), Some(duration), Some(third));
    CyclingAcceptedIff(Some(distance), Some(duration), Some(third));
  }
}
