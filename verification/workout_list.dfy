/**
 * The ordered workout list `#workouts` and the two queries the App runs over it:
 * `find` by id (`_moveToPopup`) and `filter` by id (`_deleteWorkout`).
 */
module WorkoutList {
  import opened Options
  import opened Workouts

  function WorkoutIds(ws: seq<Workout>): set<string> {
    set w | w in ws :: w.id
  }

  /** `#workouts.find(work => work.id === id)`, as the index of the first match. */
  function FindWorkout(ws: seq<Workout>, id: string): (r: Option<nat>)
    ensures r.Some? ==> r.value < |ws| && ws[r.value].id == id
    ensures r.Some? ==> forall j :: 0 <= j < r.value ==> ws[j].id != id
    ensures r.None? ==> id !in WorkoutIds(ws)
  {
    if |ws| == 0 then None
    else if ws[0].id == id then Some(0)
    else match FindWorkout(ws[1..], id)
      case None => None
      case Some(k) => Some(k + 1)
  }

  /** `#workouts.filter(work => work.id !== id)`: no workout with the id is left. */
  function WithoutWorkout(ws: seq<Workout>, id: string): (r: seq<Workout>)
    ensures |r| <= |ws|
    ensures forall i :: 0 <= i < |r| ==> r[i].id != id
  {
    if |ws| == 0 then []
    else (if ws[0].id == id then [] else [ws[0]]) + WithoutWorkout(ws[1..], id)
  }

  /** The filter keeps exactly the workouts with another id. */
  lemma {:induction false} WithoutWorkoutMembers(ws: seq<Workout>, id: string)
    ensures forall w :: w in WithoutWorkout(ws, id) <==> w in ws && w.id != id
  {
    if |ws| > 0 {
      WithoutWorkoutMembers(ws[1..], id);
      assert ws == [ws[0]] + ws[1..];
    }
  }

  /** The filter works piecewise, so the kept workouts stay in their relative order. */
  lemma {:induction false} WithoutWorkoutAppend(a: seq<Workout>, b: seq<Workout>, id: string)
    ensures WithoutWorkout(a + b, id) == WithoutWorkout(a, id) + WithoutWorkout(b, id)
  {
    if |a| > 0 {
      assert (a + b)[1..] == a[1..] + b;
      WithoutWorkoutAppend(a[1..], b, id);
    } else {
      assert a + b == b;
    }
  }

  /** Filtering out an id that no workout has changes nothing. */
  lemma {:induction false} WithoutAbsentWorkout(ws: seq<Workout>, id: string)
    requires id !in WorkoutIds(ws)
    ensures WithoutWorkout(ws, id) == ws
  {
    if |ws| > 0 {
      assert ws[0] in ws;
      assert WorkoutIds(ws[1..]) <= WorkoutIds(ws) by {
        forall x | x in WorkoutIds(ws[1..]) ensures x in WorkoutIds(ws) {
          var w :| w in ws[1..] && w.id == x;
          assert w in ws;
        }
      }
      WithoutAbsentWorkout(ws[1..], id);
      assert ws == [ws[0]] + ws[1..];
    }
  }

  /**
   * Deleting removes every workout with `id` and only those: the ids left are the old ones
   * less `id`, the kept workouts are the old ones with another id, and deleting again
   * changes nothing.
   */
  lemma WithoutWorkoutSpec(ws: seq<Workout>, id: string)
    ensures var r := WithoutWorkout(ws, id);
      && id !in WorkoutIds(r)
      && WorkoutIds(r) == WorkoutIds(ws) - {id}
      && (forall w :: w in r <==> w in ws && w.id != id)
      && WithoutWorkout(r, id) == r
  {
    var r := WithoutWorkout(ws, id);
    WithoutWorkoutMembers(ws, id);
    WithoutAbsentWorkout(r, id);
  }

  /** The first-match property determines the result of `FindWorkout`. */
  lemma FindWorkoutIs(ws: seq<Workout>, id: string, k: Option<nat>)
    requires k.Some? ==> k.value < |ws| && ws[k.value].id == id
    requires k.Some? ==> forall j :: 0 <= j < k.value ==> ws[j].id != id
    requires k.None? ==> forall j :: 0 <= j < |ws| ==> ws[j].id != id
    ensures FindWorkout(ws, id) == k
  {
  }

  lemma WorkoutIdsAppend(ws: seq<Workout>, w: Workout)
    ensures WorkoutIds(ws + [w]) == WorkoutIds(ws) + {w.id}
  {
    assert w in ws + [w];
    forall x | x in WorkoutIds(ws) ensures x in WorkoutIds(ws + [w]) {
      var v :| v in ws && v.id == x;
      assert v in ws + [w];
    }
  }

  lemma WorkoutIdsFront(ws: seq<Workout>)
    requires |ws| > 0
    ensures WorkoutIds(ws) == WorkoutIds(ws[..|ws| - 1]) + {ws[|ws| - 1].id}
  {
    WorkoutIdsAppend(ws[..|ws| - 1], ws[|ws| - 1]);
    assert ws[..|ws| - 1] + [ws[|ws| - 1]] == ws;
  }

  /** Appending a built workout keeps every listed workout as built. */
  lemma AppendWellFormed(ws: seq<Workout>, w: Workout)
    requires AllWellFormed(ws) && WellFormed(w)
    ensures AllWellFormed(ws + [w])
  {
    assert (ws + [w])[..|ws|] == ws;
  }

  /** Deleting keeps every remaining workout as built. */
  lemma {:induction false} WithoutWorkoutWellFormed(ws: seq<Workout>, id: string)
    requires AllWellFormed(ws)
    ensures AllWellFormed(WithoutWorkout(ws, id))
  {
    if |ws| > 0 {
      var front, last := ws[..|ws| - 1], ws[|ws| - 1];
      WithoutWorkoutWellFormed(front, id);
      assert front + [last] == ws;
      WithoutWorkoutAppend(front, [last], id);
      var rest := WithoutWorkout(front, id);
      assert [last][1..] == [];
      if last.id == id {
        assert rest + [] == rest;
      } else {
        AppendWellFormed(rest, last);
      }
    }
  }
}
