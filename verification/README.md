# Workout tracker bookkeeping, modelled in Dafny

The source program is a browser workout tracker. The user clicks a point on a map and fills in
a form, and a workout is logged: a run (with a cadence) or a ride (with an elevation gain).
The app shows the workout as a marker, draws a line to it from the user's position, lists it
in a sidebar and saves the whole list in the browser's store. A click on a list entry pans
the map to it. A delete button removes it once the user confirms. A controls panel shows
while there are workouts.

The model covers the program's bookkeeping. It leaves out the map library and the page:

- `JsNumbers`: numbers as the form and the store deliver them. A finite value is an exact
  real. NaN and the two infinities are kept apart, so `Number.isFinite`, `> 0` and `/`
  behave as in JavaScript.
- `Validation`: the `validInputs` and `allPositive` helpers, and the rule each activity
  applies with them.
- `Workouts`: the `Workout`, `Running` and `Cycling` values: pace, speed, the description
  `"<Type> on <Month> <day>"` (which is proved to read back to its type and date), and the
  two constructors.
- `WorkoutList`: the `find` and `filter` calls on the workout list.
- `Storage`: the stored snapshot and its revival on load.
- `Registry`: the `#markers` registry. Each entry is `{id, marker?, line?}`, found with
  `find` and created when missing. `Put` is the find-or-create update, written recursively.
  `PutIsUpsert` and `CurrentIsFound` tie it to the first-match search.
- `ListClicks`: the delegated click handler's choice between selecting and deleting.
- `AppModel`: the controller's whole state as a value, and one function per handler. The
  invariant `Consistent` ties the state together:
  - registry ids are unique, belong to listed workouts, and name only layers already issued;
  - the store loads back exactly the list;
  - once the map exists, every workout has its marker and its line;
  - the controls panel follows the list.

  Every handler is proved to keep `Consistent`.
- `Tracker`: the controller as a class `App`, with one field per private field of the
  source. Each handler is a method that updates the fields in place, with its loops where
  the source has them. Each is proved to move `Snapshot()` exactly as the `AppModel`
  function says.

The clock (the fresh id and today's date), the geolocation result, the user's confirmation
answer and the form values reach the model as parameters. The form values arrive already
converted to numbers.

`_getLocalStorage` calls `JSON.parse` without a guard, so a malformed store makes the
constructor throw. The model starts from an already parsed snapshot
(`Option<seq<StoredRecord>>`) and leaves parse failures out.

## Model

| member | source | states |
|---|---|---|
| JsNumbers.DivOfPositives | script.js:52 | dividing two positive finite numbers gives their exact quotient, which is finite and positive |
| Validation.RunningAccepted | script.js:227-236 | a run is accepted exactly when distance, duration and cadence are all finite and greater than zero |
| Validation.CyclingAccepted | script.js:239-248 | a ride is accepted exactly when all three values are finite and distance and duration are greater than zero; the elevation gain may be zero or negative |
| Validation.RunningRuleIsStricter | script.js:214-248 | any input the running rule accepts, the cycling rule accepts too |
| Validation.NonPositiveExtraAsymmetry | script.js:242-246 | with valid distance and duration, a non-positive finite extra value is accepted as an elevation gain and rejected as a cadence |
| Validation.InfinityRejected | script.js:215-217 | an infinite input passes `allPositive` but never `validInputs`, so both rules reject it |
| Workouts.KindOfTypeName | script.js:427-443 | exactly the type names "running" and "cycling" select a constructor, and the selected kind's name is the stored name |
| Workouts.PaceOfValidInputs | script.js:50-54 | for positive finite inputs the pace is the exact positive quotient of duration by distance (min/km) |
| Workouts.SpeedOfValidInputs | script.js:67-71 | for positive finite inputs the speed is distance divided by hours, that is 60·distance/duration (km/h), and positive |
| Workouts.PaceTimesSpeed | script.js:50-71 | pace times speed is 60 for any valid inputs: the two metrics describe the same workout in reciprocal units |
| Workouts.Capitalize | script.js:30 | the first letter is upper-cased (a lower-case letter moves 32 code points down) and the rest is unchanged |
| Workouts.CapitalizedTypeName | script.js:30 | the capitalised type names are "Running" and "Cycling" |
| Workouts.MonthNamesDistinct | script.js:15-28 | the twelve month names are pairwise distinct |
| Workouts.DecimalString | script.js:32 | the day of the month is written as a non-empty string of decimal digits |
| Workouts.DecimalRoundTrip | script.js:32 | reading the decimal digits of a number back gives the number |
| Workouts.DescriptionRoundTrip | script.js:14-33 | a description reads back as exactly the type and date it was built from |
| Workouts.DescriptionInjective | script.js:14-33 | two equal descriptions name the same type and the same month and day |
| Workouts.NewRunning | script.js:40-48 | a new run has no clicks, the clock's id and date, the given coordinates, distance, duration and cadence, its pace, and the description of its type and date |
| Workouts.NewCycling | script.js:57-65 | a new ride has no clicks, the clock's id and date, the given coordinates, distance, duration and elevation gain, its speed, and the description of its type and date |
| Workouts.Create | script.js:225-248 | the constructor picked by the activity type builds a well-formed workout of that type, carrying the given fields and no clicks |
| Workouts.BuiltWorkoutMetrics | script.js:40-72 | a workout built from valid input has the exact pace (run) or speed (ride) of its numbers, and a description that reads back as its type and date |
| WorkoutList.FindWorkout | script.js:366-368 | `find` returns the index of the first workout with the id, or none exactly when no workout has it |
| WorkoutList.WithoutWorkout | script.js:381 | filtering never lengthens the list and leaves no workout with the id |
| WorkoutList.WithoutWorkoutMembers | script.js:381 | the filtered list holds exactly the workouts whose id differs |
| WorkoutList.WithoutWorkoutAppend | script.js:381 | filtering a concatenation filters each part, so order is kept |
| WorkoutList.WithoutAbsentWorkout | script.js:381 | filtering out an id no workout has leaves the list unchanged |
| WorkoutList.WithoutWorkoutSpec | script.js:381 | after filtering no workout has the id, the ids are the old ones minus this one, every other workout stays, and filtering again changes nothing |
| WorkoutList.WorkoutIdsAppend | script.js:251 | pushing a workout adds exactly its id to the list's ids |
| WorkoutList.AppendWellFormed | script.js:251 | pushing a constructed workout onto a list of constructed workouts keeps every workout as its constructor built it |
| WorkoutList.WithoutWorkoutWellFormed | script.js:381 | filtering keeps every remaining workout as its constructor built it |
| Storage.StoreAll | script.js:416 | the snapshot has one record per workout, in list order |
| Storage.Revived | script.js:425-451 | a record is revived exactly when its type is known; the revived workout is well formed and stores back to the very same record |
| Storage.RevivedAsWritten | script.js:429-449 | the source's own revival: it keeps exactly the known types, and the stored fields (type, numbers, id, clicks, date) come back |
| Storage.AsWrittenDescribesLoadDay | script.js:429-449 | the source's revival differs from the intended one only in the description, which names the day of loading |
| Storage.AsWrittenLosesStoredDay | script.js:429-449 | a run logged on 5 January and reloaded on 7 February does not survive the store unchanged |
| Storage.ReviveStored | script.js:425-451 | storing a constructed workout and reviving the record gives the same workout |
| Storage.ReviveAll | script.js:424-452 | revival never yields more workouts than records |
| Storage.ReviveAllWellFormed | script.js:424-452 | every revived workout is as its constructor built it |
| Storage.RevivalKeepsKnownRecords | script.js:424-454 | storing the revived list gives back exactly the records of a known type, in stored order |
| Storage.StoreAllAppend | script.js:416 | the snapshot of a longer list is the old snapshot plus the new workout's record |
| Storage.LoadAfterSave | script.js:415-454 | saving a list of constructed workouts and loading the snapshot gives the same list back |
| Storage.Revive | script.js:424-454 | the revival loop pushes exactly the revived known records, in stored order |
| Registry.FindEntry | script.js:286 | `find` returns the index of the first entry with the id, or none exactly when no entry has it |
| Registry.Current | script.js:286-290 | the entry a render updates always carries the workout's id |
| Registry.CurrentIsFound | script.js:286-290 | the entry updated is the one `find` returns, or a fresh `{id}` entry when there is none |
| Registry.WithoutEntry | script.js:388 | filtering never lengthens the registry, and afterwards `find` finds no entry with the id |
| Registry.WithoutEntryMembers | script.js:388 | the filtered registry holds exactly the entries whose id differs |
| Registry.WithoutAbsentEntry | script.js:384-389 | when `find` finds no entry, the registry is left as it is |
| Registry.WithoutEntryUnique | script.js:388 | filtering keeps registry ids unique |
| Registry.WithoutEntryKeepsOthers | script.js:388 | filtering one id leaves every other workout's entry untouched |
| Registry.RemoveEntrySpec | script.js:384-389 | after removal the ids stay unique, the id is gone, and every other entry is unchanged |
| Registry.WithoutEntryHandles | script.js:386-388 | removing an entry issues no new layers |
| Registry.PutAt | script.js:286-291 | when the id is registered, the update replaces the entry `find` returns, in place |
| Registry.PutPush | script.js:286-290 | when the id is not registered, the update pushes the entry at the end |
| Registry.PutIsUpsert | script.js:286-291 | the update is find-or-create: in place at the found index, or pushed at the end |
| Registry.PutCurrent | script.js:286-291 | after the update the id's entry is the new one, and every other id's entry is unchanged |
| Registry.PutIds | script.js:286-290 | the update adds exactly the id to the registered ids |
| Registry.PutMembers | script.js:286-290 | the update brings in no entry except the new one |
| Registry.PutWithout | script.js:286-290 | apart from the updated id, the registry is as before |
| Registry.PutUnique | script.js:286-290 | find-or-create keeps registry ids unique |
| Registry.PutHandles | script.js:286-291 | an update with issued layers keeps every registered layer issued |
| Registry.PutTwice | script.js:183-188 | updating an id twice is the same as the second update alone |
| Registry.PutSpec | script.js:286-291 | ids stay unique, the id now maps to the new entry, other entries and the rest of the registry are unchanged, and no other entry is added |
| Registry.SetMarkerSpec | script.js:285-291 | storing a marker sets only the marker of the workout's entry (its line is kept), creates the entry if missing, and touches no other entry |
| Registry.SetLineSpec | script.js:182-188 | storing a line sets only the line of the workout's entry (its marker is kept), creates the entry if missing, and touches no other entry |
| Registry.RenderBothIsTwoSets | script.js:253-256 | storing a marker and then a line is one update of the entry to hold both |
| Registry.RenderBothCurrent | script.js:253-256 | after both renders the workout's entry holds the two new layers, and every other entry is unchanged |
| Registry.RenderBothIds | script.js:253-256 | rendering a workout registers exactly its id |
| Registry.RenderBothUnique | script.js:253-256 | rendering a workout keeps registry ids unique |
| Registry.RenderBothHandles | script.js:253-256 | rendering a workout uses exactly the two next serials |
| Registry.RenderBothSpec | script.js:253-256 | ids stay unique, serials stay issued, exactly the id is added, its entry holds the two new layers, and every other entry is unchanged |
| ListClicks.Dispatch | script.js:346-360 | a click inside an entry but outside its controls selects that entry; otherwise a click on a delete button deletes that button's workout; nothing else acts |
| AppModel.InputsAccepted | script.js:227-248 | the form is accepted exactly when distance and duration are finite and positive, the extra value is finite, and it is positive for a run |
| AppModel.PopupView | script.js:362-375 | the map pans exactly when it exists and a workout has the id, and then to the coordinates of the first workout with the id, at zoom 16 |
| AppModel.RenderBothKeepsRendered | script.js:253-256 | rendering a workout leaves it rendered and keeps every workout already rendered rendered |
| AppModel.AddedIsRendered | script.js:251-256 | after a push and a render, every workout of the longer list is rendered |
| AppModel.RenderAllUnique | script.js:137-140 | rendering the whole list keeps registry ids unique |
| AppModel.RenderAllHandles | script.js:137-140 | rendering the whole list uses two fresh serials per workout |
| AppModel.RenderAllIds | script.js:137-140 | rendering the whole list registers exactly the list's ids in addition to those already there |
| AppModel.RenderAllRenders | script.js:137-140 | after rendering the whole list, each of its workouts is rendered, and so is everything rendered before |
| AppModel.RenderAllRendersList | script.js:137-140 | after rendering the whole list, every workout of it has its marker and its line |
| AppModel.DeletedKeepsRendered | script.js:381-389 | deleting a workout and its entry keeps every remaining workout rendered |
| AppModel.StartedConsistent | script.js:96-100 | a fresh app is consistent whatever the store held; its list is empty without a snapshot, and otherwise holds exactly the snapshot's records of a known type |
| AppModel.MapLoadedConsistent | script.js:121-142 | loading the map keeps the invariant, renders every workout (the registry then holds exactly the listed ids), keeps the list and the store, and shows the controls exactly when the page has them and the list is not empty |
| AppModel.FormShownConsistent | script.js:191-195 | opening the form keeps the invariant, remembers the clicked point and opens the form, and leaves the list, the registry, the store and the controls as they were |
| AppModel.AddedRegistryOk | script.js:251-256 | adding a workout keeps registry ids unique, registered ids listed, and serials issued |
| AppModel.AddedStorageInSync | script.js:251-262 | adding a constructed workout and saving keeps the store loading back exactly the list |
| AppModel.AddedConsistent | script.js:251-265 | adding a workout on a loaded map keeps the invariant |
| AppModel.SubmittedConsistent | script.js:214-266 | submitting keeps the invariant; accepted input appends exactly one workout of the chosen type at the clicked point (with the clock's id and date, the given distance, duration and cadence or elevation gain, and no clicks), which is rendered and saved, and the form hides and the controls show; anything else changes nothing |
| AppModel.DeletedConsistent | script.js:377-400 | deleting keeps the invariant; declined, nothing changes; confirmed, no workout and no entry with the id is left, every other workout stays, the store loads back the list, and the controls stay shown exactly while workouts remain |
| AppModel.ClickedConsistent | script.js:346-360 | a click on the list keeps the invariant, and only a confirmed delete changes the state |
| AppModel.ControlsFollowList | script.js:403-413 | once the map exists, the controls panel is shown exactly when the page has one and the list is not empty |
| AppModel.ConsistentGuards | script.js:219-253 | in a consistent app, a clicked point, an open form or a registry entry exists only once the map does |
| AppModel.DeletedStaysDeleted | script.js:377-400 | after a confirmed delete, loading the store brings back no workout with the id |
| JsNumbers.Div | script.js:52 | `/` on JavaScript numbers; `DivOfPositives` and `DivEdgeCases` state what it gives |
| JsNumbers.DivEdgeCases | script.js:52 | a positive number over zero is +Infinity, zero over zero is NaN, NaN spreads, and a finite number over an infinite one is zero |
| Validation.ValidInputs | script.js:215-216 | `validInputs`: every input is finite; `RunningAccepted`, `CyclingAccepted` and `InfinityRejected` state what it decides |
| Validation.AllPositive | script.js:217 | `allPositive`: every input is greater than zero; `RunningAccepted`, `CyclingAccepted` and `InfinityRejected` state what it decides |
| Workouts.Describe | script.js:14-33 | `_setDescription`; `DescriptionRoundTrip` and `DescriptionInjective` state that it determines and is determined by the type and the date |
| Workouts.Pace | script.js:50-53 | `calcPace`; `PaceOfValidInputs` and `PaceTimesSpeed` state its value |
| Workouts.Speed | script.js:67-71 | `calcSpeed`; `SpeedOfValidInputs` and `PaceTimesSpeed` state its value |
| Storage.Store | script.js:416 | the record `JSON.stringify` writes for a workout; `ReviveStored` states that revival inverts it |
| Storage.Loaded | script.js:419-421 | what `_getLocalStorage` leaves in the list; `LoadAfterSave` and `RevivalKeepsKnownRecords` state what it gives |
| Registry.Put | script.js:286-291 | the find-or-create update; `PutIsUpsert` and `PutSpec` state it |
| Registry.SetMarker | script.js:286-291 | `markerObj.marker = marker` on the found or created entry; `SetMarkerSpec` states it |
| Registry.SetLine | script.js:183-188 | `markerObj.line = line` on the found or created entry; `SetLineSpec` states it |
| Registry.RenderBoth | script.js:253-256 | a workout's marker and then its line; `RenderBothIsTwoSets` and `RenderBothSpec` state it |
| AppModel.Started | script.js:96-100 | the state after `new App()`; `StartedConsistent` states it |
| AppModel.RenderAll | script.js:137-140 | the `forEach` of `_loadMap`; `RenderAllIds`, `RenderAllUnique`, `RenderAllHandles` and `RenderAllRendersList` state it |
| AppModel.MapLoaded | script.js:121-142 | the state after `_loadMap`; `MapLoadedConsistent` states it |
| AppModel.FormShown | script.js:191-195 | the state after `_showForm`; `FormShownConsistent` states it |
| AppModel.Added | script.js:251-265 | the state after an accepted `_newWorkout`; `AddedConsistent`, `AddedRegistryOk` and `AddedStorageInSync` state it |
| AppModel.Submitted | script.js:214-266 | the state after `_newWorkout`; `SubmittedConsistent` states it |
| AppModel.Deleted | script.js:377-400 | the state after `_deleteWorkout`; `DeletedConsistent` and `DeletedStaysDeleted` state it |
| AppModel.Clicked | script.js:346-360 | the state after `_handleWorkoutClick`; `ClickedConsistent` states it |
| AppModel.ClickView | script.js:346-360 | the map pans exactly when the click selects an entry, the map exists and a workout has the entry's id |
| Tracker.App.constructor | script.js:96-100 | the new app holds the revived stored list, no map, no entries, and hidden form and controls |
| Tracker.App.FindMarker | script.js:286 | the search loop returns the index of the first entry with the id, or none |
| Tracker.App.RenderWorkoutMarker | script.js:268-292 | the registry gets a fresh marker layer in the workout's entry, which is created if missing |
| Tracker.App.RenderConnectionLine | script.js:167-189 | the registry gets a fresh line layer in the workout's entry, which is created if missing |
| Tracker.App.ShowControls | script.js:403-407 | the panel shows if the page has one; otherwise nothing changes |
| Tracker.App.HideControls | script.js:409-413 | the panel hides if the page has one; otherwise nothing changes |
| Tracker.App.SetLocalStorage | script.js:415-417 | the store holds the snapshot of the current list |
| Tracker.App.LoadMap | script.js:121-143 | the state moves as `MapLoaded` says: the map exists at the user's position, every workout is rendered in order, and the controls show if there are workouts |
| Tracker.App.RenderWorkouts | script.js:137-140 | the loop renders each workout's marker and then its line, in list order, using two serials per workout |
| Tracker.App.ShowForm | script.js:191-195 | the clicked point is remembered and the form opens |
| Tracker.App.HideForm | script.js:197-207 | the form is hidden |
| Tracker.App.AddWorkout | script.js:251-266 | the state moves as `Added` says: the workout is pushed, rendered and saved, the form hides and the controls show |
| Tracker.App.BuildWorkout | script.js:221-249 | a workout is built exactly when the activity's rule accepts the input, and it is the one that activity's constructor builds |
| Tracker.App.NewWorkout | script.js:214-266 | the state moves as `Submitted` says, and a workout is added exactly when a point was clicked and the input is accepted |
| Tracker.App.DeleteWorkout | script.js:377-400 | the state moves as `Deleted` says |
| Tracker.App.MoveToPopup | script.js:362-375 | the requested view is `PopupView` of the current state |
| Tracker.App.HandleWorkoutClick | script.js:346-360 | the state moves as `Clicked` says, and the requested view is `ClickView` of the state before |

## Left out

- Leaflet: tiles, the map object, popups, marker icons, line colours and geometry, panning
  animation and `removeLayer`. A layer is an opaque `Handle` with a fresh serial, and
  "the map exists" is `mapReady`.
- The user's own location marker (`_renderUserLocationMarker`): it is pure map drawing and
  is not kept in any state the other handlers read.
- The DOM: `_renderWorkout`'s HTML, `toFixed(1)` formatting, clearing the form inputs, the
  `setTimeout` that restores the form's layout, `_toggleElevationField`, and removing a list
  entry (`querySelector` removes only the first entry with the id). The list entries are
  not modelled.
- `_getPosition`: geolocation and its failure alert. The position reaches `LoadMap` as a
  parameter.
- `reset`: it clears the store and reloads the page, which ends the model's run.
- Parsing the store: `JSON.parse` failures and `JSON.stringify` writing NaN and the
  infinities as `null`. A snapshot is the already parsed list of records.
- The conversion of form strings to numbers (`+input.value`). The form values reach the
  model as `JsNumber`s.
- IEEE-754 rounding, overflow and signed zero. Finite numbers are exact reals.
- Dates are reduced to month and day, the only parts the description uses.
- `Workout.click()`: nothing in the program calls it, so `clicks` only changes on revival.
- A form type other than "running" or "cycling": the form's type select offers only these
  two, so `Kind` has two values. The source would push `undefined` at script.js:251.
- The source's `_renderWorkout` template has no `.btn--delete` and no
  `.workout__controls`, so in the running program the delete branch of
  `_handleWorkoutClick` is never reached. The dispatch is still modelled as written.
- Tracker.App.MoveToPopup: when no workout has the clicked id, the source throws a TypeError
  while reading `workout.coords`. The model returns no view and changes nothing, which is
  what the throw amounts to.
- Tracker.App.NewWorkout: without a clicked point, reading `#mapEvent.latlng` throws before
  anything changes. The model changes nothing.
- Tracker.App.DeleteWorkout and Tracker.App.HandleWorkoutClick: these require
  `markers != [] ==> mapReady`, because the source's `removeLayer` needs a map.
  `AppModel.ConsistentGuards` proves that every consistent state meets this.
- Tracker.App: the methods carry only the guards the source's map calls need. The invariant
  `Consistent` is stated and proved on the value-level functions of `AppModel`, which each
  method's `Snapshot()` postcondition matches.
- Registry.Put and Registry.Current are written recursively rather than through the index
  `find` returns. `PutIsUpsert` and `CurrentIsFound` prove that the two agree.
- AppModel.Started: revives with the corrected `Storage.Revived`, whose description is built
  from the stored date. The source's revival describes each workout with the day of loading
  (see "## Findings" and `Storage.AsWrittenDescribesLoadDay`, which shows this is the only
  difference). The corrected revival is used so that a saved list loads back unchanged.
- AppModel.StartedConsistent: its `Consistent`, in particular every workout being well formed
  and the store loading back the list, holds for the corrected revival. With the source's
  revival, a workout reloaded on another day carries the load day in its description.
- Tracker.App.constructor: revives through `Storage.Revive`, that is with the corrected
  description, for the same reason as `AppModel.Started`.
- Workouts.Capitalize: `toUpperCase` is modelled for the ASCII letters a to z only. Only the
  two type names "running" and "cycling" are ever capitalised.
- Workout ids are not assumed unique. The clock may repeat an id; deletion then removes
  every workout with it, as the source's `filter` does.

## Findings

| source | as written | input that shows it | evidently intended | confidence | as-written member | corrected member |
|---|---|---|---|---|---|---|
| script.js:429-449 | revival runs the constructor, which builds the description from the current date `new Date()`, and copies the stored `date` over only afterwards | a run logged on 5 January and reloaded on 7 February is described as "Running on February 7" while its date is 5 January | the description is derived from the stored date, so a saved workout loads back unchanged | high; not executed | Storage.RevivedAsWritten, Storage.AsWrittenLosesStoredDay | Storage.Revived, Storage.LoadAfterSave |
