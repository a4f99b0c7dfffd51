/**
 * The `App` controller's state as a value, and what each of its handlers does to it.
 * `State` holds one component per field of the class; each handler is a function from the
 * state before to the state after, and `Consistent` is the invariant every handler keeps:
 * the registry, the stored snapshot and the controls panel agree with the workout list.
 */
module AppModel {
  import opened Options
  import opened JsNumbers
  import opened Validation
  import opened Workouts
  import opened WorkoutList
  import opened Storage
  import opened Registry
  import opened ListClicks

  /** `#mapZoomLevel`. */
  const MAP_ZOOM_LEVEL: int := 16

  /** A `setView(center, zoom)` request to the map. */
  datatype View = View(center: Coords, zoom: int)

  datatype State = State(
    workouts: seq<Workout>,                  // `#workouts`
    markers: seq<MarkerEntry>,               // `#markers`
    storage: Option<seq<StoredRecord>>,      // the store's `workouts` key
    mapReady: bool,                          // `#map` exists
    userCoords: Option<Coords>,              // `#userCoords`
    formAnchor: Option<Coords>,              // `#mapEvent.latlng`
    formOpen: bool,                          // the form is shown
    controlsShown: bool,                     // the controls panel is shown
    controlsPresent: bool,                   // the page has a controls panel
    nextHandle: nat)                         // the serial of the next map layer

  /** The rule `_newWorkout` applies to the form values of the chosen activity. */
  function InputsAccepted(k: Kind, distance: JsNumber, duration: JsNumber, extra: JsNumber): (ok: bool)
    ensures ok <==> (distance.Finite? && distance.value > 0.0
                     && duration.Finite? && duration.value > 0.0
                     && extra.Finite? && (k == Running ==> extra.value > 0.0))
  {
    match k
    case Running => RunningAccepted(distance, duration, extra)
    case Cycling => CyclingAccepted(distance, duration, extra)
  }

  // ---------------------------------------------------------------------------
  // The invariant

  /** Every listed workout has its marker and its line registered. */
  predicate AllRendered(reg: seq<MarkerEntry>, ws: seq<Workout>) {
    forall i :: 0 <= i < |ws| ==> Rendered(reg, ws[i].id)
  }

  /** Registry ids are unique, belong to listed workouts, and name layers already issued. */
  predicate RegistryOk(s: State) {
    && UniqueIds(s.markers)
    && EntryIds(s.markers) <= WorkoutIds(s.workouts)
    && HandlesBelow(s.markers, s.nextHandle)
  }

  /** Every listed workout is as its constructor built it, and loading the store gives back exactly the list. */
  predicate StorageInSync(s: State) {
    AllWellFormed(s.workouts) && Loaded(s.storage) == s.workouts
  }

  /**
   * Once the map exists every workout has its marker and its line; before, nothing is on
   * the map, no point has been clicked, and neither the form nor the controls are shown.
   */
  predicate MapInSync(s: State) {
    && (s.mapReady ==> AllRendered(s.markers, s.workouts))
    && (!s.mapReady ==> s.markers == [] && s.formAnchor.None? && !s.formOpen && !s.controlsShown)
  }

  /** The controls are shown only while there are workouts, and always then once the map exists. */
  predicate ControlsInSync(s: State) {
    && (s.controlsShown ==> s.controlsPresent && |s.workouts| > 0)
    && (s.mapReady && s.controlsPresent && |s.workouts| > 0 ==> s.controlsShown)
  }

  predicate Consistent(s: State) {
    RegistryOk(s) && StorageInSync(s) && MapInSync(s) && ControlsInSync(s)
  }

  // ---------------------------------------------------------------------------
  // The handlers

  /** `new App()`: the stored list is revived; geolocation is pending, so there is no map yet. */
  function Started(stored: Option<seq<StoredRecord>>, controlsPresent: bool): State {
    State(Loaded(stored), [], stored, false, None, None, false, false, controlsPresent, 0)
  }

  /** The `forEach` of `_loadMap`: each workout's marker and then its line, in list order. */
  function RenderAll(reg: seq<MarkerEntry>, ws: seq<Workout>, next: nat): seq<MarkerEntry> {
    if |ws| == 0 then reg
    else RenderBoth(RenderAll(reg, ws[..|ws| - 1], next), ws[|ws| - 1].id, next + 2 * (|ws| - 1))
  }

  /** `_loadMap`: the map exists at the user's position, every workout is rendered, and the controls show if there are any. */
  function MapLoaded(s: State, user: Coords): State {
    s.(userCoords := Some(user), mapReady := true,
       markers := RenderAll(s.markers, s.workouts, s.nextHandle),
       nextHandle := s.nextHandle + 2 * |s.workouts|,
       controlsShown := if |s.workouts| > 0 && s.controlsPresent then true else s.controlsShown)
  }

  /** `_showForm`: the clicked point is remembered and the form opens. */
  function FormShown(s: State, click: Coords): State {
    s.(formAnchor := Some(click), formOpen := true)
  }

  /**
   * The accepted branch of `_newWorkout`: the workout is pushed, its marker and line are
   * rendered, the form closes, the list is saved and the controls show.
   */
  function Added(s: State, w: Workout): State {
    var ws := s.workouts + [w];
    s.(workouts := ws,
       markers := RenderBoth(s.markers, w.id, s.nextHandle),
       nextHandle := s.nextHandle + 2,
       formOpen := false,
       storage := Some(StoreAll(ws)),
       controlsShown := s.controlsShown || s.controlsPresent)
  }

  /**
   * `_newWorkout`. Without a clicked point, reading `#mapEvent.latlng` throws before
   * anything changes; input the activity's rule rejects is alerted and changes nothing.
   */
  function Submitted(s: State, kind: Kind, distance: JsNumber, duration: JsNumber, extra: JsNumber,
                     id: string, now: Date): State
  {
    if s.formAnchor.None? || !InputsAccepted(kind, distance, duration, extra) then s
    else Added(s, Create(kind, s.formAnchor.value, distance, duration, extra, id, now))
  }

  /**
   * `_deleteWorkout`: declined, nothing changes; confirmed, the workouts and the entry with
   * the id are filtered out, the list is saved and the controls hide if it is left empty.
   */
  function Deleted(s: State, id: string, confirmed: bool): State {
    if !confirmed then s
    else
      var ws := WithoutWorkout(s.workouts, id);
      s.(workouts := ws,
         markers := WithoutEntry(s.markers, id),
         storage := Some(StoreAll(ws)),
         controlsShown := if |ws| == 0 && s.controlsPresent then false else s.controlsShown)
  }

  /** The view `_moveToPopup` asks the map for, if any: the first workout with the id, at the fixed zoom. */
  function PopupView(s: State, id: string): (v: Option<View>)
    ensures v.Some? <==> s.mapReady && id in WorkoutIds(s.workouts)
    ensures v.Some? ==> exists i :: 0 <= i < |s.workouts| && s.workouts[i].id == id
                                    && (forall j :: 0 <= j < i ==> s.workouts[j].id != id)
                                    && v.value == View(s.workouts[i].coords, MAP_ZOOM_LEVEL)
  {
    if !s.mapReady then None
    else match FindWorkout(s.workouts, id)
      case None => None
      case Some(i) => Some(View(s.workouts[i].coords, MAP_ZOOM_LEVEL))
  }

  /** `_handleWorkoutClick`'s effect on the state: only a delete changes anything. */
  function Clicked(s: State, t: ClickTarget, confirmed: bool): State {
    match Dispatch(t)
    case Delete(id) => Deleted(s, id, confirmed)
    case _ => s
  }

  /** The view `_handleWorkoutClick` requests: a select pans to the workout, nothing else pans. */
  function ClickView(s: State, t: ClickTarget): (v: Option<View>)
    ensures v.Some? <==> Dispatch(t).Select? && s.mapReady && Dispatch(t).id in WorkoutIds(s.workouts)
  {
    match Dispatch(t)
    case Select(id) => PopupView(s, id)
    case _ => None
  }

  // ---------------------------------------------------------------------------
  // Rendering

  /** Rendering `id` leaves it rendered and keeps every other rendered workout rendered. */
  lemma RenderBothKeepsRendered(reg: seq<MarkerEntry>, id: string, n: nat, x: string)
    requires x == id || Rendered(reg, x)
    ensures Rendered(RenderBoth(reg, id, n), x)
  {
    RenderBothCurrent(reg, id, n, x);
  }

  /** Rendering a new workout keeps the whole longer list rendered. */
  lemma AddedIsRendered(reg: seq<MarkerEntry>, ws: seq<Workout>, w: Workout, n: nat)
    requires AllRendered(reg, ws)
    ensures AllRendered(RenderBoth(reg, w.id, n), ws + [w])
  {
    var ws' := ws + [w];
    forall j | 0 <= j < |ws'|
      ensures Rendered(RenderBoth(reg, w.id, n), ws'[j].id)
    {
      if j < |ws| {
        assert ws'[j] == ws[j];
      }
      RenderBothKeepsRendered(reg, w.id, n, ws'[j].id);
    }
  }

  /** Rendering a whole list keeps ids unique. */
  lemma {:induction false} RenderAllUnique(reg: seq<MarkerEntry>, ws: seq<Workout>, next: nat)
    requires UniqueIds(reg)
    ensures UniqueIds(RenderAll(reg, ws, next))
  {
    if |ws| > 0 {
      var front := ws[..|ws| - 1];
      RenderAllUnique(reg, front, next);
      RenderBothUnique(RenderAll(reg, front, next), ws[|ws| - 1].id, next + 2 * |front|);
    }
  }

  /** Rendering a whole list issues two fresh serials per workout. */
  lemma {:induction false} RenderAllHandles(reg: seq<MarkerEntry>, ws: seq<Workout>, next: nat)
    requires HandlesBelow(reg, next)
    ensures HandlesBelow(RenderAll(reg, ws, next), next + 2 * |ws|)
  {
    if |ws| > 0 {
      var front := ws[..|ws| - 1];
      RenderAllHandles(reg, front, next);
      RenderBothHandles(RenderAll(reg, front, next), ws[|ws| - 1].id, next + 2 * |front|);
    }
  }

  /** Rendering a whole list registers exactly the list's ids in addition to those already there. */
  lemma {:induction false} RenderAllIds(reg: seq<MarkerEntry>, ws: seq<Workout>, next: nat)
    ensures EntryIds(RenderAll(reg, ws, next)) == EntryIds(reg) + WorkoutIds(ws)
  {
    if |ws| > 0 {
      var front, last := ws[..|ws| - 1], ws[|ws| - 1];
      RenderAllIds(reg, front, next);
      RenderBothIds(RenderAll(reg, front, next), last.id, next + 2 * |front|);
      WorkoutIdsFront(ws);
    }
  }

  /** After rendering a whole list, every workout in it is rendered and so is everything rendered before. */
  lemma {:induction false} RenderAllRenders(reg: seq<MarkerEntry>, ws: seq<Workout>, next: nat, x: string)
    requires x in WorkoutIds(ws) || Rendered(reg, x)
    ensures Rendered(RenderAll(reg, ws, next), x)
  {
    if |ws| > 0 {
      var front, last := ws[..|ws| - 1], ws[|ws| - 1];
      WorkoutIdsFront(ws);
      if x != last.id {
        RenderAllRenders(reg, front, next, x);
      }
      RenderBothCurrent(RenderAll(reg, front, next), last.id, next + 2 * |front|, x);
    }
  }

  /** Rendering a whole list leaves every workout of the list rendered. */
  lemma RenderAllRendersList(reg: seq<MarkerEntry>, ws: seq<Workout>, next: nat)
    ensures AllRendered(RenderAll(reg, ws, next), ws)
  {
    forall i | 0 <= i < |ws|
      ensures Rendered(RenderAll(reg, ws, next), ws[i].id)
    {
      assert ws[i] in ws;
      RenderAllRenders(reg, ws, next, ws[i].id);
    }
  }

  /** Deleting a workout and its registry entry keeps every remaining workout rendered. */
  lemma DeletedKeepsRendered(reg: seq<MarkerEntry>, ws: seq<Workout>, id: string)
    requires UniqueIds(reg) && AllRendered(reg, ws)
    ensures AllRendered(WithoutEntry(reg, id), WithoutWorkout(ws, id))
  {
    var ws', reg' := WithoutWorkout(ws, id), WithoutEntry(reg, id);
    WithoutWorkoutMembers(ws, id);
    RemoveEntrySpec(reg, id);
    forall i | 0 <= i < |ws'|
      ensures Rendered(reg', ws'[i].id)
    {
      var w := ws'[i];
      assert w in ws && w.id != id;
      var j :| 0 <= j < |ws| && ws[j] == w;
      assert Rendered(reg, ws[j].id);
    }
  }

  // ---------------------------------------------------------------------------
  // Every handler keeps the invariant

  /** A fresh app is consistent, whatever the store held, and lists exactly what revival kept. */
  lemma StartedConsistent(stored: Option<seq<StoredRecord>>, controlsPresent: bool)
    ensures var s := Started(stored, controlsPresent);
      && Consistent(s)
      && (stored.Some? ==> StoreAll(s.workouts) == KnownRecords(stored.value))
      && (stored.None? ==> s.workouts == [])
  {
    var s := Started(stored, controlsPresent);
    assert EntryIds([]) == {};
    if stored.Some? {
      RevivalKeepsKnownRecords(stored.value);
      ReviveAllWellFormed(stored.value);
    }
  }

  /**
   * Loading the map renders every workout (the registry then holds exactly the listed ids)
   * and leaves the controls shown exactly when the page has them and the list is not empty.
   */
  lemma MapLoadedConsistent(s: State, user: Coords)
    requires Consistent(s) && !s.mapReady
    ensures var t := MapLoaded(s, user);
      && Consistent(t)
      && t.mapReady && t.userCoords == Some(user)
      && t.workouts == s.workouts && t.storage == s.storage
      && EntryIds(t.markers) == WorkoutIds(t.workouts)
      && (t.controlsShown <==> s.controlsPresent && |s.workouts| > 0)
  {
    assert EntryIds(s.markers) == {};
    RenderAllUnique(s.markers, s.workouts, s.nextHandle);
    RenderAllHandles(s.markers, s.workouts, s.nextHandle);
    RenderAllIds(s.markers, s.workouts, s.nextHandle);
    RenderAllRendersList(s.markers, s.workouts, s.nextHandle);
  }

  /** Opening the form keeps the invariant and changes nothing but the anchor and the form. */
  lemma FormShownConsistent(s: State, click: Coords)
    requires Consistent(s) && s.mapReady
    ensures var t := FormShown(s, click);
      && Consistent(t)
      && t.formAnchor == Some(click) && t.formOpen
      && t.workouts == s.workouts && t.markers == s.markers && t.storage == s.storage
      && t.controlsShown == s.controlsShown
  {
  }

  /** Adding a workout keeps the registry well formed: the new id belongs to the longer list and its serials are fresh. */
  lemma AddedRegistryOk(s: State, w: Workout)
    requires RegistryOk(s)
    ensures RegistryOk(Added(s, w))
  {
    RenderBothUnique(s.markers, w.id, s.nextHandle);
    RenderBothHandles(s.markers, w.id, s.nextHandle);
    RenderBothIds(s.markers, w.id, s.nextHandle);
    WorkoutIdsAppend(s.workouts, w);
  }

  /** Adding a built workout keeps the store in step with the list. */
  lemma AddedStorageInSync(s: State, w: Workout)
    requires StorageInSync(s) && WellFormed(w)
    ensures StorageInSync(Added(s, w))
  {
    AppendWellFormed(s.workouts, w);
    LoadAfterSave(s.workouts + [w]);
  }

  /** Adding a workout on a loaded map keeps the invariant. */
  lemma AddedConsistent(s: State, w: Workout)
    requires Consistent(s) && s.mapReady && WellFormed(w)
    ensures Consistent(Added(s, w))
  {
    AddedRegistryOk(s, w);
    AddedStorageInSync(s, w);
    AddedIsRendered(s.markers, s.workouts, w, s.nextHandle);
  }

  /**
   * Submitting the form keeps the invariant. Accepted input appends exactly one workout,
   * built by its constructor at the clicked point with the given id, which is rendered and
   * saved, and the controls show; anything else changes nothing.
   */
  lemma SubmittedConsistent(s: State, kind: Kind, distance: JsNumber, duration: JsNumber,
                            extra: JsNumber, id: string, now: Date)
    requires Consistent(s)
    ensures var t := Submitted(s, kind, distance, duration, extra, id, now);
      && Consistent(t)
      && (s.formAnchor.None? || !InputsAccepted(kind, distance, duration, extra) ==> t == s)
      && (s.formAnchor.Some? && InputsAccepted(kind, distance, duration, extra) ==>
            && |t.workouts| == |s.workouts| + 1
            && t.workouts[..|s.workouts|] == s.workouts
            && (var w := t.workouts[|s.workouts|];
                WellFormed(w) && w.id == id && w.coords == s.formAnchor.value && w.Activity() == kind
                && w.distance == distance && w.duration == duration && Extra(w) == extra
                && w.date == now && w.clicks == 0)
            && Rendered(t.markers, id)
            && Loaded(t.storage) == t.workouts
            && !t.formOpen
            && t.controlsShown == s.controlsPresent)
  {
    if s.formAnchor.Some? && InputsAccepted(kind, distance, duration, extra) {
      var w := Create(kind, s.formAnchor.value, distance, duration, extra, id, now);
      AddedConsistent(s, w);
      assert (s.workouts + [w])[..|s.workouts|] == s.workouts;
      RenderBothKeepsRendered(s.markers, id, s.nextHandle, id);
    }
  }

  /**
   * Deleting keeps the invariant. Declined, nothing changes; confirmed, no workout and no
   * registry entry with the id is left, every other workout stays, the store loads back the
   * list, and the controls stay shown exactly while workouts remain.
   */
  lemma DeletedConsistent(s: State, id: string, confirmed: bool)
    requires Consistent(s)
    ensures var t := Deleted(s, id, confirmed);
      && Consistent(t)
      && (!confirmed ==> t == s)
      && (confirmed ==>
            && id !in WorkoutIds(t.workouts)
            && id !in EntryIds(t.markers)
            && WorkoutIds(t.workouts) == WorkoutIds(s.workouts) - {id}
            && (forall w :: w in t.workouts <==> w in s.workouts && w.id != id)
            && Loaded(t.storage) == t.workouts
            && (t.controlsShown <==> s.controlsShown && |t.workouts| > 0))
  {
    if confirmed {
      var ws := WithoutWorkout(s.workouts, id);
      WithoutWorkoutSpec(s.workouts, id);
      WithoutWorkoutWellFormed(s.workouts, id);
      LoadAfterSave(ws);
      RemoveEntrySpec(s.markers, id);
      WithoutEntryHandles(s.markers, id, s.nextHandle);
      if s.mapReady {
        DeletedKeepsRendered(s.markers, s.workouts, id);
      } else {
        assert WithoutEntry(s.markers, id) == [];
      }
    }
  }

  /** A click on the list keeps the invariant; only a confirmed delete changes the state. */
  lemma ClickedConsistent(s: State, t: ClickTarget, confirmed: bool)
    requires Consistent(s)
    ensures Consistent(Clicked(s, t, confirmed))
    ensures !(Dispatch(t).Delete? && confirmed) ==> Clicked(s, t, confirmed) == s
  {
    if Dispatch(t).Delete? {
      DeletedConsistent(s, Dispatch(t).id, confirmed);
    }
  }

  // ---------------------------------------------------------------------------
  // Consequences

  /**
   * The controls panel follows the list once the map exists: in every consistent state it
   * is shown exactly when the page has one and the list is not empty.
   */
  lemma ControlsFollowList(s: State)
    requires Consistent(s) && s.mapReady
    ensures s.controlsShown <==> s.controlsPresent && |s.workouts| > 0
  {
  }

  /**
   * A consistent app meets the guards of the class's handlers: a clicked point or a
   * registry entry exists only once the map does, so `_newWorkout` always has a map to draw
   * on and `_deleteWorkout` a map to remove layers from.
   */
  lemma ConsistentGuards(s: State)
    requires Consistent(s)
    ensures s.formAnchor.Some? ==> s.mapReady
    ensures s.markers != [] ==> s.mapReady
    ensures s.formOpen ==> s.mapReady
  {
  }

  /** A deleted id never comes back on the next load: the snapshot holds no workout with it. */
  lemma DeletedStaysDeleted(s: State, id: string)
    requires Consistent(s)
    ensures id !in WorkoutIds(Loaded(Deleted(s, id, true).storage))
  {
    DeletedConsistent(s, id, true);
  }
}
