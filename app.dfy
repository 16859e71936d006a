/** The application controller: the ordered list of recorded workouts, the
    map click a new workout will be placed at, and the persisted copy of the
    list in the browser's storage slot "workout". Rendering (markers, list
    items, the form) is a write-only projection of this state and is not
    part of the model. */
module Mapty {

  import opened Wrappers
  import opened Workouts
  import opened Validation

  /** What one submission of the form leads to. */
  datatype Outcome =
    | Added(workout: Workout)  // pushed to the list, then the list is persisted
    | Rejected                 // the alert "Inputs have to be positive number"
    | NoLocation               // no map click yet: reading `#mapEvent.latlng` throws

  /** The workout an accepted form builds at the clicked position. */
  function Build(f: Form, at: Coords, now: Instant): (w: Workout)
    requires Accepts(f)
    ensures w.Running? <==> f.RunningForm?
    ensures w.coords == at && w.date == now
    ensures f.distance == Some(w.distance) && f.duration == Some(w.duration)
    ensures f.RunningForm? ==> f.cadence == Some(w.cadence)
    ensures f.CyclingForm? ==> f.elevation == Some(w.elevation)
  {
    match f
    case RunningForm(distance, duration, cadence) =>
      RunningAcceptedIff(distance, duration, cadence);
      NewRunning(at, distance.value, duration.value, cadence.value, now)
    case CyclingForm(distance, duration, elevation) =>
      CyclingAcceptedIff(distance, duration, elevation);
      NewCycling(at, distance.value, duration.value, elevation.value, now)
  }

  /** What `_newWorkout` does with a form, given the last map click. */
  function Decide(pending: Option<Coords>, f: Form, now: Instant): (o: Outcome)
    ensures o.NoLocation? <==> pending.None?
    ensures o.Rejected? <==> pending.Some? && !Accepts(f)
    ensures o.Added? ==> Accepts(f) && o.workout == Build(f, pending.value, now)
  {
    if pending.None? then NoLocation
    else if !Accepts(f) then Rejected
    else Added(Build(f, pending.value, now))
  }

  /** Every workout an accepted form builds is well formed: positive distance
      and duration, the id and description of its instant, and a pace or
      speed consistent with them. */
  lemma BuildWellFormed(f: Form, at: Coords, now: Instant)
    requires Accepts(f)
    ensures WellFormed(Build(f, at, now))
  {
    match f
    case RunningForm(distance, duration, cadence) =>
      RunningAcceptedIff(distance, duration, cadence);
    case CyclingForm(distance, duration, elevation) =>
      CyclingAcceptedIff(distance, duration, elevation);
  }

  /** The list a fresh page starts with: `_getLocalStorage` on top of the
      empty initial list. */
  function Reload(slot: Option<seq<Workout>>): (r: seq<Workout>)
    ensures slot.Some? ==> r == slot.value
    ensures slot.None? ==> r == []
  {
    if slot.Some? then slot.value else []
  }

  /** Index of the first workout whose id is `id`. */
  function FindIndex(ws: seq<Workout>, id: string): (r: Option<nat>)
    ensures r.Some? ==> r.value < |ws| && ws[r.value].id == id
    ensures r.Some? ==> forall j :: 0 <= j < r.value ==> ws[j].id != id
    ensures r.None? ==> forall j :: 0 <= j < |ws| ==> ws[j].id != id
  {
    if ws == [] then None
    else if ws[0].id == id then Some(0)
    else match FindIndex(ws[1..], id)
      case None => None
      case Some(k) => Some(k + 1)
  }

  /** `#workouts.find(work => work.id === id)`: the first workout in list
      order with that id, if there is one. */
  function FindById(ws: seq<Workout>, id: string): (r: Option<Workout>)
    ensures r.None? <==> forall j :: 0 <= j < |ws| ==> ws[j].id != id
    ensures r.Some? ==> exists i :: 0 <= i < |ws| && ws[i] == r.value && ws[i].id == id &&
                                    forall j :: 0 <= j < i ==> ws[j].id != id
  {
    match FindIndex(ws, id)
    case None => None
    case Some(i) => Some(ws[i])
  }

  /** When no two workouts share an id, looking up the id of any workout in
      the list finds that very workout. */
  lemma LookupFindsEach(ws: seq<Workout>, i: nat)
    requires i < |ws|
    requires forall j, k :: 0 <= j < k < |ws| ==> ws[j].id != ws[k].id
    ensures FindById(ws, ws[i].id) == Some(ws[i])
  {
    var r := FindIndex(ws, ws[i].id);
    assert r.Some? && r.value <= i;
  }

  /** Appending never changes what an earlier lookup found: a later workout
      with a colliding id is shadowed by the first one. */
  lemma {:induction false} FindAfterAppend(ws: seq<Workout>, w: Workout, id: string)
    ensures FindById(ws + [w], id) ==
              if FindById(ws, id).Some? then FindById(ws, id)
              else if w.id == id then Some(w)
              else None
  {
    if ws != [] {
      FindAfterAppend(ws[1..], w, id);
      assert (ws + [w])[1..] == ws[1..] + [w];
    }
  }

  /** An event of a session: a click on the map, or a submission of the
      form at a given instant. */
  datatype Event = MapClick(at: Coords) | Submit(form: Form, now: Instant)

  /** The state events act on: the workout list and the last map click. */
  datatype Session = Session(workouts: seq<Workout>, pending: Option<Coords>)

  /** One event: a map click replaces the pending location and leaves the
      list alone; a submission never touches the pending location, and
      changes the list exactly when there is a click and the form passes
      the guard. */
  function Step(s: Session, e: Event): (r: Session)
    ensures e.MapClick? ==> r == Session(s.workouts, Some(e.at))
    ensures e.Submit? ==> r.pending == s.pending
    ensures e.Submit? ==> (r.workouts != s.workouts <==> s.pending.Some? && Accepts(e.form))
  {
    match e
    case MapClick(at) => s.(pending := Some(at))
    case Submit(f, now) =>
      match Decide(s.pending, f, now)
      case Added(w) => s.(workouts := s.workouts + [w])
      case _ => s
  }

  /** The session after a sequence of events, oldest first. Without a map
      click the pending location stays what it was; once there has been a
      click, a location stays pending, since submissions never clear it. */
  function Run(s: Session, events: seq<Event>): (r: Session)
    ensures (forall i :: 0 <= i < |events| ==> events[i].Submit?) ==> r.pending == s.pending
    ensures s.pending.Some? || (exists i :: 0 <= i < |events| && events[i].MapClick?) ==> r.pending.Some?
    decreases |events|
  {
    if events == [] then s
    else
      var init := events[..|events| - 1];
      assert forall i :: 0 <= i < |init| ==> init[i] == events[i];
      Step(Run(s, init), events[|events| - 1])
  }

  /** One event appends at most one workout, leaves the earlier ones in
      place, and what it appends is well formed. */
  lemma StepOnlyAppends(s: Session, e: Event)
    ensures |s.workouts| <= |Step(s, e).workouts| <= |s.workouts| + 1
    ensures Step(s, e).workouts[..|s.workouts|] == s.workouts
    ensures |Step(s, e).workouts| > |s.workouts| ==> WellFormed(Step(s, e).workouts[|s.workouts|])
  {
    if e.Submit? && Decide(s.pending, e.form, e.now).Added? {
      BuildWellFormed(e.form, s.pending.value, e.now);
      assert Step(s, e).workouts == s.workouts + [Build(e.form, s.pending.value, e.now)];
    }
  }

  /** A session only ever appends: earlier workouts keep their places, each
      event adds at most one workout, and every added workout is well formed. */
  lemma {:induction false} RunOnlyAppends(s: Session, events: seq<Event>)
    ensures |s.workouts| <= |Run(s, events).workouts| <= |s.workouts| + |events|
    ensures Run(s, events).workouts[..|s.workouts|] == s.workouts
    ensures forall i :: |s.workouts| <= i < |Run(s, events).workouts| ==>
              WellFormed(Run(s, events).workouts[i])
  {
    if events != [] {
      var before := Run(s, events[..|events| - 1]);
      RunOnlyAppends(s, events[..|events| - 1]);
      var after := Step(before, events[|events| - 1]);
      StepOnlyAppends(before, events[|events| - 1]);
      assert after.workouts[..|s.workouts|] == before.workouts[..|s.workouts|];
      forall i | |s.workouts| <= i < |after.workouts|
        ensures WellFormed(after.workouts[i])
      {
        if i < |before.workouts| {
          assert after.workouts[i] == before.workouts[i];
        }
      }
    }
  }

  /** Where `_moveToPopup` sends the map. */
  datatype Pan =
    | Ignored        // the click was not on a workout entry
    | PanTo(at: Coords)
    | NotFound       // no workout has the entry's id: reading `coords` throws

  class App {
    /** `#workouts`, in insertion order. */
    var workouts: seq<Workout>
    /** `#mapEvent`: the position of the last click on the map. */
    var mapEvent: Option<Coords>
    /** The storage slot "workout": the list as last persisted, if any. */
    var stored: Option<seq<Workout>>

    /** The persisted copy is what a reload would start from: reloading the
        page reproduces the list in memory. */
    ghost predicate Valid()
      reads this
    {
      workouts == Reload(stored)
    }

    /** `new App()` on a page whose storage slot holds `slot`. */
    constructor(slot: Option<seq<Workout>>)
      ensures Valid()
      ensures stored == slot && workouts == Reload(slot) && mapEvent == None
    {
      workouts := [];
      mapEvent := None;
      stored := slot;
      new;
      GetLocalStorage();
    }

    /** `_showForm`: remember where the map was clicked. */
    method ShowForm(at: Coords)
      requires Valid()
      modifies this`mapEvent
      ensures Valid()
      ensures mapEvent == Some(at)
    {
      mapEvent := Some(at);
    }

    /** `_newWorkout`: validate the form; on success append exactly one
        workout at the clicked position and persist the whole list. A
        rejection or a missing click changes nothing. */
    method NewWorkout(f: Form, now: Instant) returns (o: Outcome)
      requires Valid()
      modifies this`workouts, this`stored
      ensures Valid()
      ensures o == Decide(mapEvent, f, now)
      ensures workouts == if o.Added? then old(workouts) + [o.workout] else old(workouts)
      ensures stored == if o.Added? then Some(workouts) else old(stored)
    {
      if mapEvent.None? {
        return NoLocation;
      }
      var at := mapEvent.value;
      var w: Workout;
      match f {
        case RunningForm(distance, duration, cadence) =>
          if !AllFinite([distance, duration, cadence]) || !AllPositive([distance, duration, cadence]) {
            return Rejected;
          }
          RunningAcceptedIff(distance, duration, cadence);
          w := NewRunning(at, distance.value, duration.value, cadence.value, now);
        case CyclingForm(distance, duration, elevation) =>
          if !AllFinite([distance, duration, elevation]) || !AllPositive([distance, duration]) {
            return Rejected;
          }
          CyclingAcceptedIff(distance, duration, elevation);
          w := NewCycling(at, distance.value, duration.value, elevation.value, now);
      }
      assert Decide(mapEvent, f, now) == Added(w);
      workouts := workouts + [w];
      SetLocalStorage();
      o := Added(w);
    }

    /** `_moveToPopup`: a click on a list entry carrying `clicked` as its id
        (None when the click hit no entry) pans to that workout. */
    method MoveToPopup(clicked: Option<string>) returns (r: Pan)
      ensures clicked.None? <==> r.Ignored?
      ensures clicked.Some? ==> (r.NotFound? <==> forall j :: 0 <= j < |workouts| ==> workouts[j].id != clicked.value)
      ensures r.PanTo? ==> exists i :: 0 <= i < |workouts| && workouts[i].id == clicked.value &&
                                       workouts[i].coords == r.at &&
                                       forall j :: 0 <= j < i ==> workouts[j].id != clicked.value
    {
      if clicked.None? {
        return Ignored;
      }
      var found := FindById(workouts, clicked.value);
      if found.None? {
        return NotFound;
      }
      r := PanTo(found.value.coords);
    }

    /** `_setLocalStorage`: overwrite the slot with the whole list. */
    method SetLocalStorage()
      modifies this`stored
      ensures Valid()
      ensures stored == Some(workouts)
    {
      stored := Some(workouts);
    }

    /** `_getLocalStorage`: an empty slot leaves the list alone; otherwise the
        stored list replaces it wholesale. */
    method GetLocalStorage()
      modifies this`workouts
      ensures stored.Some? ==> workouts == stored.value
      ensures stored.None? ==> workouts == old(workouts)
      ensures old(workouts) == [] ==> Valid()
    {
      if stored.None? {
        return;
      }
      workouts := stored.value;
    }

    /** `_reset`: when confirmed, delete the slot and reload the page, which
        starts a new App from the now empty slot; otherwise do nothing. */
    method Reset(confirmed: bool)
      requires Valid()
      modifies this
      ensures Valid()
      ensures confirmed ==> stored == None && workouts == [] && mapEvent == None
      ensures !confirmed ==> stored == old(stored) && workouts == old(workouts) && mapEvent == old(mapEvent)
    {
      if confirmed {
        stored := None;
        workouts := [];
        mapEvent := None;
        GetLocalStorage();
      }
    }
  }

  /** A page session: start from the storage slot `saved`, play the events
      against the App, then open a fresh page on the slot it leaves behind.
      The list in memory is the one the session specification computes, and
      the fresh page reloads exactly that list. */
  method RunThenReload(saved: Option<seq<Workout>>, events: seq<Event>) returns (live: seq<Workout>, reloaded: seq<Workout>)
    ensures live == Run(Session(Reload(saved), None), events).workouts
    ensures reloaded == live
  {
    var app := new App(saved);
    var i := 0;
    while i < |events|
      invariant 0 <= i <= |events|
      invariant app.Valid()
      invariant Session(app.workouts, app.mapEvent) == Run(Session(Reload(saved), None), events[..i])
    {
      match events[i] {
        case MapClick(at) =>
          app.ShowForm(at);
        case Submit(f, now) =>
          var _ := app.NewWorkout(f, now);
      }
      assert events[..i + 1][..i] == events[..i];
      i := i + 1;
    }
    assert events[..i] == events;
    live := app.workouts;
    var page := new App(app.stored);
    reloaded := page.workouts;
  }
}
