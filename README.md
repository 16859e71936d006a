# Mapty workout log — a Dafny model of its workout logic

Mapty is a single-page browser app: the user clicks a point on a map, fills
a short form, and a running or cycling workout is recorded there. It shows
as a map marker and as a list entry. The list is kept in browser storage
across reloads. This project models the app's domain logic in `script.js`
and proves properties of it. The model has four parts.

- **Workout entities** (`workout.dfy`, module `Workouts`). A `Workout` is a
  datatype with a `Running` and a `Cycling` variant, holding the fields the
  JavaScript constructors assign. `NewRunning` and `NewCycling` model the
  constructors. Each computes the derived metric once (pace for running,
  speed for cycling), the id (the last ten characters of the millisecond
  timestamp's decimal text) and the description
  ("Running on January 5").
- **Decimal text** (`decimal.dfy`, module `Decimal`). This models `n + ""`
  for whole numbers below 2^53 and `slice(-k)`. The id and the day of the
  description are built from it.
- **Form validation** (`validation.dfy`, module `Validation`). These are the
  guards of `_newWorkout`. A numeric field is an `Option<real>`, where
  `None` stands for a value that is not a finite number.
- **The controller** (`app.dfy`, module `Mapty`). The class `App` holds
  `#workouts`, `#mapEvent` (the last map click) and the storage slot
  `"workout"`. Its methods model `_showForm` (remembering the click only),
  `_newWorkout`, `_moveToPopup` (the lookup and the pan target),
  `_setLocalStorage`, `_getLocalStorage` and `_reset`. The pure functions
  `Decide`, `Step` and `Run` specify what a form submission, and a whole
  sequence of clicks and submissions, does to the list.
  `RunThenReload` plays a session against the class. It then opens a fresh
  `App` on the storage slot the session leaves behind, and proves that the
  fresh page reloads exactly the list that was in memory.

The class invariant `App.Valid()` says that the persisted slot is what a
reload would start from: `workouts == Reload(stored)`. Every method keeps it.
`GetLocalStorage` runs only on a fresh page, whose list is empty, and
establishes it there.

Two behaviours of the code that the model keeps:
- After a successful submission `#mapEvent` is not cleared, so the clicked
  location is not consumed. A second submission without a new click reuses
  it (`App.NewWorkout` leaves `mapEvent` unchanged).
- `_getLocalStorage` replaces the list whenever the slot parses to a truthy
  value, and an empty stored array is truthy. So a present but empty list
  also replaces the in-memory list, which is empty at that point anyway.

## Model

| member | source | states |
|---|---|---|
| Decimal.NatToString | script.js:16 | `n + ""` of a whole number below 2^53 is a non-empty string of decimal digits with no leading zero |
| Decimal.ValueOfNatToString | script.js:16 | the decimal text of `n` denotes `n` (round trip through `Value`) |
| Decimal.NatToStringInjective | script.js:26 | different numbers have different decimal texts (used for the day in a description) |
| Decimal.SliceFromEnd | script.js:16 | for `k > 0`, `s.slice(-k)` is the last `k` characters of `s`, or all of `s` when it is shorter, and is a suffix of `s` |
| Decimal.SliceFromEndValue | script.js:16 | `(n + "").slice(-k)` denotes `n mod 10^k` |
| Workouts.IdOf | script.js:16 | the id is 1 to 10 decimal digits |
| Workouts.IdValue | script.js:16 | the id denotes the creation timestamp modulo 10^10 |
| Workouts.IdsCollideIff | script.js:16 | two ids are equal only if their timestamps agree modulo 10^10; for timestamps of at least ten digits, they are equal exactly then |
| Workouts.Workout.Type | script.js:31-46 | the `type` tag is "running" exactly for a running workout, and is non-empty and starts with a lower-case letter |
| Workouts.MonthName | script.js:25 | `months[m]` for `m` in 0..11 is a non-empty name without a space |
| Workouts.MonthNamesDistinct | script.js:25 | the twelve month names are pairwise different |
| Workouts.UpperChar | script.js:26 | `toUpperCase` maps `a`..`z` to `A`..`Z` and leaves other characters alone |
| Workouts.Capitalize | script.js:26 | the first character is upper-cased, the rest of the type name is kept, and the length is unchanged |
| Workouts.Describe | script.js:24-27 | the description starts with the upper-cased first letter of the type, ends with the digits of the day, and is exactly as long as the type, " on ", the month name, a space and the day |
| Workouts.DescribeParts | script.js:24-27 | a description starts with the capitalised type, and after " on " comes the month name, a space and the day |
| Workouts.DescriptionDeterminesTypeAndDay | script.js:24-27 | equal descriptions mean equal type, month and day: the format is unambiguous |
| Workouts.CalcPace | script.js:39-42 | pace times distance equals duration (minutes per kilometre) |
| Workouts.CalcSpeed | script.js:54-57 | speed times duration equals 60 times distance (kilometres per hour from minutes) |
| Workouts.PaceSpeedReciprocal | script.js:39-57 | for a positive distance and duration, pace and speed are positive and their product is 60 |
| Workouts.MeasuredMetric | script.js:39-57 | a workout with positive distance and duration whose metric is the one `_calcPace` or `_calcSpeed` gives has a positive pace (minutes per kilometre: pace times distance is the duration) or a positive speed (speed times duration is 60 times the distance) |
| Workouts.NewRunning | script.js:30-37 | a running workout keeps coords, distance, duration and cadence, gets the id and the "running" description of its instant, and the pace `_calcPace` computes; with positive inputs it is well formed |
| Workouts.NewCycling | script.js:45-52 | a cycling workout keeps coords, distance, duration and elevation, gets the id and the "cycling" description, and the speed `_calcSpeed` computes; with positive distance and duration it is well formed |
| Validation.RunningAcceptedIff | script.js:117-133 | a running form is accepted if and only if distance, duration and cadence are all finite and strictly positive |
| Validation.CyclingAcceptedIff | script.js:117-144 | a cycling form is accepted if and only if all three inputs are finite and distance and duration are strictly positive |
| Validation.NonPositiveThirdInput | script.js:128-147 | with positive distance and duration, a zero or negative third value is rejected as a cadence and accepted as an elevation |
| Validation.AllFinite | script.js:117 | `validInput` holds exactly when no input is a non-finite number |
| Validation.AllPositive | script.js:118 | `checkNumberPositive` holds exactly when every input is a number greater than zero, so it implies `validInput` |
| Validation.Accepts | script.js:132-143 | an accepted form of either kind has finite, strictly positive distance and duration, so pace and speed are defined |
| Mapty.Build | script.js:128-147 | an accepted form builds a workout of the form's kind, at the clicked position and instant, carrying the form's numbers |
| Mapty.BuildWellFormed | script.js:128-147 | every workout an accepted form builds is well formed: positive distance and duration (and cadence for running), the id and description of its instant, and the pace or speed of its numbers |
| Mapty.Decide | script.js:124-151 | a submission fails for lack of a click exactly when there is none, is rejected exactly when there is a click but the guard fails, and otherwise adds the workout `Build` makes from the form at the click, which happens only for an accepted form |
| Mapty.Reload | script.js:239-243 | a fresh page's list is the stored list when the slot holds one, and empty when it does not |
| Mapty.FindIndex | script.js:226 | finds the first position whose id matches, or reports that no entry matches |
| Mapty.FindById | script.js:226 | `find` returns nothing exactly when no id matches, else the first workout in list order with that id |
| Mapty.LookupFindsEach | script.js:226 | when ids are pairwise distinct, looking up any listed workout's id returns that workout |
| Mapty.FindAfterAppend | script.js:226 | appending a workout does not change an earlier lookup result; the new workout is found only if no earlier one has its id |
| Mapty.Step | script.js:103-151 | a map click replaces the pending location and leaves the list alone; a submission never changes the pending location, and changes the list exactly when there is a click and the form passes the guard |
| Mapty.Run | script.js:103-151 | with no map click the pending location stays as it was; once the map has been clicked, a location stays pending for the rest of the session |
| Mapty.StepOnlyAppends | script.js:151 | one click or submission leaves the earlier workouts in place and appends at most one, which is well formed |
| Mapty.RunOnlyAppends | script.js:151 | over any sequence of clicks and submissions, earlier workouts keep their order, each event adds at most one workout, and every added workout is well formed |
| Mapty.App.constructor | script.js:68-75 | a new App starts with no click and loads the list from the slot; the invariant holds |
| Mapty.App.ShowForm | script.js:103-107 | a map click is remembered as the pending location |
| Mapty.App.NewWorkout | script.js:114-164 | the outcome is `Decide`'s; on acceptance the list is the old list plus exactly that workout at the end and the slot holds the new list; otherwise nothing changes |
| Mapty.App.MoveToPopup | script.js:221-233 | a click off an entry does nothing; otherwise the pan target is the coords of the first workout with the entry's id, and a missing id is reported |
| Mapty.App.SetLocalStorage | script.js:235-237 | the slot is overwritten with the whole list |
| Mapty.App.GetLocalStorage | script.js:239-247 | an empty slot leaves the list alone; a stored list replaces it wholesale |
| Mapty.App.Reset | script.js:249-256 | when confirmed, the slot is deleted and the reloaded page starts with no workouts; otherwise nothing changes |
| Mapty.RunThenReload | script.js:235-243 | playing a session leaves the list the session specification computes, and a fresh page on the resulting slot reloads exactly that list |

## Left out

- Rendering. This covers `_renderWorkoutToList` with its HTML template and `toFixed(1)` formatting, `_hideForm` with its timer, `_toggleElevationField`, and the DOM part of `_showForm`. These produce output only and are never read back. In `_newWorkout` the marker is rendered before the list is persisted, so a rendering failure would skip persistence; a map click sets `#mapEvent` only once the map exists, so rendering cannot fail for lack of a map.
- The Leaflet map. This covers `_loadMap`, the tile layer, `_renderWorkoutMarker`, and the `setView` call in `_moveToPopup`. `App.MoveToPopup` returns the target coordinates instead. The fields `#map` and `#mapZoomLevel` are not modelled.
- Geolocation (`_getPosition`). It is an asynchronous host service.
- Browser storage and JSON. The slot holds the list itself. A real reload turns `date` into a string and yields plain objects, which the model does not show.
- Decimal.NatToString: matches `n + ""` only for whole numbers below 2^53. Above that JavaScript prints the shortest digits that round-trip, and from 10^21 on it uses exponent form. Every `Date.now()` and every day of the month is far below 2^53.
- IEEE-754 arithmetic. Numbers are reals, and a non-finite field value is `None`.
- Workouts.NewRunning: requires a non-zero distance. JavaScript would instead yield a non-finite pace (an infinity, or NaN when the duration is zero too). The only caller checks for a positive distance first.
- Workouts.NewCycling: requires a non-zero duration, for the same reason.
- Validation.AllPositive: treats a non-finite input as not positive, while JavaScript treats `Infinity` as positive. The guard never reaches this check with a non-finite input.
- Clocks. `Date.now()` and `new Date()` become one `Instant` parameter with the timestamp, month and day. The model assumes both readings are of the same millisecond. It does not model the conversion from a timestamp to a calendar date.
- Workouts.UpperChar: models `toUpperCase` for ASCII only. That covers the type names "running" and "cycling".
- A type selector value other than "running" or "cycling". The code would then push `undefined`. The form offers only these two values, so `Form` has only two variants.
- `confirm` and `location.reload`. The answer to `confirm` is the parameter of `App.Reset`. The reload is modelled as the new page's start: no click, and the list loaded from the now empty slot.
- Event wiring in the constructor. It registers listeners and has no state effect.
