/**
 * The `App` controller as a class: it owns the workout list, the marker registry, the
 * stored snapshot and the visibility of the form and the controls panel, and its handlers
 * update them in place. Each handler is proved to move `Snapshot()` exactly as the
 * matching function of `AppModel` says; the lemmas there show that those functions keep
 * `Consistent`, and `ConsistentGuards` that a consistent app meets every `requires` here.
 *
 * Leaflet, the DOM and the browser store are outside the model: a map layer is an opaque
 * `Handle` with a fresh serial, "the map exists" is `mapReady`, the form's submitted values
 * arrive already converted to numbers, and the store is the `storage` field.
 */
module Tracker {
  import opened Options
  import opened JsNumbers
  import opened Validation
  import opened Workouts
  import opened WorkoutList
  import opened Storage
  import opened Registry
  import opened ListClicks
  import opened AppModel

  class App {
    /** `#workouts`, in the order they were added or revived. */
    var workouts: seq<Workout>
    /** `#markers`: one `{id, marker?, line?}` entry per rendered workout. */
    var markers: seq<MarkerEntry>
    /** The value under the store's `workouts` key; `None` when there is none. */
    var storage: Option<seq<StoredRecord>>
    /** `#map` has been created (the geolocation callback `_loadMap` has run). */
    var mapReady: bool
    /** `#userCoords`, known once the map is loaded. */
    var userCoords: Option<Coords>
    /** `#mapEvent.latlng`: where the map was last clicked to open the form. */
    var formAnchor: Option<Coords>
    /** The form is shown (its `hidden` class is off). */
    var formOpen: bool
    /** The controls panel is shown (its `hidden` class is off). */
    var controlsShown: bool
    /** The page has a controls panel (`sidebarControls` is not null). */
    const controlsPresent: bool
    /** The serial the next map layer will get. */
    var nextHandle: nat

    /** The fields as one value. */
    function Snapshot(): State
      reads this
    {
      State(workouts, markers, storage, mapReady, userCoords, formAnchor, formOpen,
            controlsShown, controlsPresent, nextHandle)
    }

    /**
     * `new App()`: `_getLocalStorage` revives the stored list (geolocation is pending, so
     * the map does not exist yet). The controls panel starts hidden.
     */
    constructor (stored: Option<seq<StoredRecord>>, controlsPresent: bool)
      ensures Snapshot() == Started(stored, controlsPresent)
    {
      var revived: seq<Workout> := [];
      if stored.Some? {
        revived := Revive(stored.value);
      }
      workouts := revived;
      markers := [];
      storage := stored;
      mapReady := false;
      userCoords := None;
      formAnchor := None;
      formOpen := false;
      controlsShown := false;
      this.controlsPresent := controlsPresent;
      nextHandle := 0;
    }

    /** The `find` over `#markers`. */
    method FindMarker(id: string) returns (found: Option<nat>)
      ensures found == FindEntry(markers, id)
    {
      var i := 0;
      while i < |markers|
        invariant 0 <= i <= |markers|
        invariant forall j :: 0 <= j < i ==> markers[j].id != id
      {
        if markers[i].id == id {
          FindEntryIs(markers, id, Some(i));
          return Some(i);
        }
        i := i + 1;
      }
      FindEntryIs(markers, id, None);
      return None;
    }

    /** `_renderWorkoutMarker`: a new marker layer on the map, stored in the workout's entry (created if missing). */
    method RenderWorkoutMarker(workout: Workout)
      requires mapReady
      modifies this`markers, this`nextHandle
      ensures markers == SetMarker(old(markers), workout.id, Handle(old(nextHandle)))
      ensures nextHandle == old(nextHandle) + 1
    {
      var marker := Handle(nextHandle);
      nextHandle := nextHandle + 1;
      var found := FindMarker(workout.id);
      CurrentIsFound(markers, workout.id);
      PutIsUpsert(markers, Current(markers, workout.id).(marker := Some(marker)));
      var i: nat;
      if found.None? {
        markers := markers + [MarkerEntry(workout.id, None, None)];
        i := |markers| - 1;
      } else {
        i := found.value;
      }
      markers := markers[i := markers[i].(marker := Some(marker))];
    }

    /** `_renderConnectionLine`: a new line layer on the map, stored in the workout's entry (created if missing). */
    method RenderConnectionLine(workout: Workout)
      requires mapReady
      modifies this`markers, this`nextHandle
      ensures markers == SetLine(old(markers), workout.id, Handle(old(nextHandle)))
      ensures nextHandle == old(nextHandle) + 1
    {
      var line := Handle(nextHandle);
      nextHandle := nextHandle + 1;
      var found := FindMarker(workout.id);
      CurrentIsFound(markers, workout.id);
      PutIsUpsert(markers, Current(markers, workout.id).(line := Some(line)));
      var i: nat;
      if found.None? {
        markers := markers + [MarkerEntry(workout.id, None, None)];
        i := |markers| - 1;
      } else {
        i := found.value;
      }
      markers := markers[i := markers[i].(line := Some(line))];
    }

    /** `_showControls`. */
    method ShowControls()
      modifies this`controlsShown
      ensures controlsShown == (old(controlsShown) || controlsPresent)
    {
      if controlsPresent {
        controlsShown := true;
      }
    }

    /** `_hideControls`. */
    method HideControls()
      modifies this`controlsShown
      ensures controlsShown == (old(controlsShown) && !controlsPresent)
    {
      if controlsPresent {
        controlsShown := false;
      }
    }

    /** `_setLocalStorage`: the whole list overwrites the stored snapshot. */
    method SetLocalStorage()
      modifies this`storage
      ensures storage == Some(StoreAll(workouts))
    {
      storage := Some(StoreAll(workouts));
    }

    /**
     * `_loadMap`, the geolocation callback: the map is created at the user's position, every
     * listed workout gets its marker and its line, and the controls show if there are any.
     */
    method LoadMap(user: Coords)
      requires !mapReady
      modifies this
      ensures Snapshot() == MapLoaded(old(Snapshot()), user)
    {
      userCoords := Some(user);
      mapReady := true;
      RenderWorkouts();
      if |workouts| > 0 {
        ShowControls();
      }
    }

    /** The `forEach` of `_loadMap`: each workout's marker and then its line, in list order. */
    method RenderWorkouts()
      requires mapReady
      modifies this`markers, this`nextHandle
      ensures markers == RenderAll(old(markers), workouts, old(nextHandle))
      ensures nextHandle == old(nextHandle) + 2 * |workouts|
    {
      var i := 0;
      while i < |workouts|
        invariant 0 <= i <= |workouts|
        invariant markers == RenderAll(old(markers), workouts[..i], old(nextHandle))
        invariant nextHandle == old(nextHandle) + 2 * i
      {
        var work := workouts[i];
        RenderBothIsTwoSets(markers, work.id, nextHandle);
        RenderWorkoutMarker(work);
        RenderConnectionLine(work);
        assert workouts[..i + 1][..i] == workouts[..i];
        i := i + 1;
      }
      assert workouts[..|workouts|] == workouts;
    }

    /** `_showForm`, the map's click handler: the form opens anchored at the clicked point. */
    method ShowForm(click: Coords)
      requires mapReady
      modifies this`formAnchor, this`formOpen
      ensures Snapshot() == FormShown(old(Snapshot()), click)
    {
      formAnchor := Some(click);
      formOpen := true;
    }

    /** `_hideForm`; clearing the inputs and the layout timer are left out. */
    method HideForm()
      modifies this`formOpen
      ensures !formOpen
    {
      formOpen := false;
    }

    /**
     * The accepting half of `_newWorkout`: the workout is appended, its marker and line are
     * drawn, the form hides, the list is saved and the controls show.
     */
    method AddWorkout(workout: Workout)
      requires mapReady
      modifies this
      ensures Snapshot() == Added(old(Snapshot()), workout)
    {
      workouts := workouts + [workout];
      RenderBothIsTwoSets(markers, workout.id, nextHandle);
      RenderWorkoutMarker(workout);
      RenderConnectionLine(workout);
      HideForm();
      SetLocalStorage();
      ShowControls();
    }

    /**
     * The validating half of `_newWorkout`: the type's rule is applied to the converted
     * inputs and, when they pass, the type's constructor runs; otherwise the alert fires and
     * nothing is built.
     */
    method BuildWorkout(kind: Kind, coords: Coords, distance: JsNumber, duration: JsNumber, extra: JsNumber,
                        id: string, now: Date) returns (built: Option<Workout>)
      ensures built == if InputsAccepted(kind, distance, duration, extra)
                       then Some(Create(kind, coords, distance, duration, extra, id, now)) else None
    {
      if kind == Running {
        var cadence := extra;
        if !RunningAccepted(distance, duration, cadence) {
          return None;
        }
        return Some(NewRunning(coords, distance, duration, cadence, id, now));
      } else {
        var elevation := extra;
        if !CyclingAccepted(distance, duration, elevation) {
          return None;
        }
        return Some(NewCycling(coords, distance, duration, elevation, id, now));
      }
    }

    /**
     * `_newWorkout`, the form's submit handler: without a map click there is no anchor and
     * nothing happens; otherwise the inputs are validated and, when accepted, the workout
     * is added. `added` reports whether it was.
     */
    method NewWorkout(kind: Kind, distance: JsNumber, duration: JsNumber, extra: JsNumber,
                      id: string, now: Date) returns (added: bool)
      requires formAnchor.Some? ==> mapReady
      modifies this
      ensures Snapshot() == Submitted(old(Snapshot()), kind, distance, duration, extra, id, now)
      ensures added == (old(formAnchor).Some? && InputsAccepted(kind, distance, duration, extra))
    {
      if formAnchor.None? {
        return false;
      }
      var built := BuildWorkout(kind, formAnchor.value, distance, duration, extra, id, now);
      if built.None? {
        return false;
      }
      AddWorkout(built.value);
      added := true;
    }

    /**
     * `_deleteWorkout`. Declined confirmation changes nothing. Confirmed, every workout with
     * the id leaves the list, its registry entry (if any) leaves the registry, the list is
     * saved, and the controls hide if the list is left empty.
     */
    method DeleteWorkout(id: string, confirmed: bool)
      requires markers != [] ==> mapReady
      modifies this
      ensures Snapshot() == Deleted(old(Snapshot()), id, confirmed)
    {
      if !confirmed {
        return;
      }
      workouts := WithoutWorkout(workouts, id);
      var found := FindMarker(id);
      if found.Some? {
        // the entry exists only once the map does, so `removeLayer` has a map to act on
        assert mapReady;
        markers := WithoutEntry(markers, id);
      } else {
        WithoutAbsentEntry(markers, id);
      }
      SetLocalStorage();
      if |workouts| == 0 {
        HideControls();
      }
    }

    /**
     * `_moveToPopup`: a no-op without a map; otherwise the first workout with the entry's id
     * is looked up and the map pans to it. When none has the id the source's `workout.coords`
     * throws and the handler stops, so no view is requested.
     */
    method MoveToPopup(id: string) returns (target: Option<View>)
      ensures target == PopupView(Snapshot(), id)
    {
      if !mapReady {
        return None;
      }
      var i := 0;
      while i < |workouts|
        invariant 0 <= i <= |workouts|
        invariant forall j :: 0 <= j < i ==> workouts[j].id != id
      {
        if workouts[i].id == id {
          FindWorkoutIs(workouts, id, Some(i));
          return Some(View(workouts[i].coords, MAP_ZOOM_LEVEL));
        }
        i := i + 1;
      }
      FindWorkoutIs(workouts, id, None);
      return None;
    }

    /**
     * `_handleWorkoutClick`: a select pans the map and changes no state; a delete runs
     * `_deleteWorkout` with the user's answer to the confirmation; anything else is ignored.
     */
    method HandleWorkoutClick(t: ClickTarget, confirmed: bool) returns (target: Option<View>)
      requires markers != [] ==> mapReady
      modifies this
      ensures Snapshot() == Clicked(old(Snapshot()), t, confirmed)
      ensures target == ClickView(old(Snapshot()), t)
    {
      match Dispatch(t)
      case Select(id) =>
        target := MoveToPopup(id);
      case Delete(id) =>
        DeleteWorkout(id, confirmed);
        target := None;
      case Ignore =>
        target := None;
    }
  }
}
