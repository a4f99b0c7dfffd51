/**
 * `_handleWorkoutClick`: the one delegated click handler of the workout list decides,
 * from where the click landed, whether it selects a workout or deletes one.
 */
module ListClicks {
  import opened Options

  /**
   * Where a click landed, as the handler's `closest` queries see it: the `data-id` of the
   * enclosing `.workout` entry, whether it is inside a `.workout__controls` area, and the
   * `data-id` of the enclosing `.btn--delete` button.
   */
  datatype ClickTarget = ClickTarget(workout: Option<string>, inControls: bool, deleteButton: Option<string>)

  datatype ListAction = Select(id: string) | Delete(id: string) | Ignore

  /**
   * A click inside an entry but outside its controls selects that entry; otherwise a click
   * on a delete button deletes the button's workout; anything else is ignored.
   */
  function Dispatch(t: ClickTarget): (a: ListAction)
    ensures a.Select? <==> t.workout.Some? && !t.inControls
    ensures a.Select? ==> a.id == t.workout.value
    ensures a.Delete? <==> (t.workout.None? || t.inControls) && t.deleteButton.Some?
    ensures a.Delete? ==> a.id == t.deleteButton.value
  {
    if t.workout.Some? && !t.inControls then Select(t.workout.value)
    else if t.deleteButton.Some? then Delete(t.deleteButton.value)
    else Ignore
  }
}
