/**
 * The stored snapshot of the workout list (`_setLocalStorage`) and its revival
 * (`_getLocalStorage`). The store itself and the JSON text are left out: a snapshot is
 * the sequence of records the JSON array parses into, and an absent key is `None`.
 */
module Storage {
  import opened Options
  import opened JsNumbers
  import opened Workouts

  /** One element of the stored array, reduced to the fields revival reads. */
  datatype StoredRecord = StoredRecord(
    typeName: string,
    coords: Coords,
    distance: JsNumber,
    duration: JsNumber,
    extra: JsNumber,   // `cadence` of a running record, `elevationGain` of a cycling one
    id: string,
    clicks: int,
    date: Date)

  /** The record `JSON.stringify` writes for one workout, as far as revival reads it. */
  function Store(w: Workout): StoredRecord {
    StoredRecord(TypeName(w.Activity()), w.coords, w.distance, w.duration, Extra(w),
                 w.id, w.clicks, w.date)
  }

  /** The snapshot of a whole list, in list order. */
  function StoreAll(ws: seq<Workout>): (rs: seq<StoredRecord>)
    ensures |rs| == |ws|
  {
    seq(|ws|, i requires 0 <= i < |ws| => Store(ws[i]))
  }

  predicate IsKnownType(r: StoredRecord) {
    r.typeName == "running" || r.typeName == "cycling"
  }

  /**
   * One record revived: the constructor of its type is run on the stored raw fields and
   * the stored clicks are copied over. The description is derived from the stored date
   * (see `RevivedAsWritten` for what the source does instead).
   */
  function Revived(r: StoredRecord): (w: Option<Workout>)
    ensures w.Some? <==> IsKnownType(r)
    ensures w.Some? ==> WellFormed(w.value) && Store(w.value) == r
  {
    match KindOfTypeName(r.typeName)
    case None => None
    case Some(k) =>
      Some(Create(k, r.coords, r.distance, r.duration, r.extra, r.id, r.date).(clicks := r.clicks))
  }

  /**
   * One record revived as the source writes it: the constructor runs with the clock's
   * fresh id and the current date `now`, so the description is built from `now`; only then
   * are the stored id, clicks and date copied over.
   */
  function RevivedAsWritten(r: StoredRecord, freshId: string, now: Date): (w: Option<Workout>)
    ensures w.Some? <==> IsKnownType(r)
    ensures w.Some? ==> Store(w.value) == r
  {
    match KindOfTypeName(r.typeName)
    case None => None
    case Some(k) =>
      var built := Create(k, r.coords, r.distance, r.duration, r.extra, freshId, now);
      Some(built.(id := r.id, clicks := r.clicks, date := r.date))
  }

  /** As written, a revived workout agrees with the intended one except that its description names the load day. */
  lemma AsWrittenDescribesLoadDay(r: StoredRecord, freshId: string, now: Date)
    requires IsKnownType(r)
    ensures RevivedAsWritten(r, freshId, now).value.description
            == Describe(RevivedAsWritten(r, freshId, now).value.Activity(), now)
    ensures RevivedAsWritten(r, freshId, now).value
            == Revived(r).value.(description := Describe(Revived(r).value.Activity(), now))
  {
  }

  /**
   * A run logged on 5 January and reloaded on 7 February: the source's revival hands back a
   * workout whose description says "Running on February 7" while its date is 5 January,
   * so the workout does not survive the store unchanged.
   */
  lemma AsWrittenLosesStoredDay()
    ensures var w := NewRunning(Coords(51.5, -0.1), Finite(5.0), Finite(25.0), Finite(150.0),
                                "1700000000", Date(0, 5));
            && WellFormed(w)
            && RevivedAsWritten(Store(w), "1700000001", Date(1, 7)) != Some(w)
  {
    var w := NewRunning(Coords(51.5, -0.1), Finite(5.0), Finite(25.0), Finite(150.0),
                        "1700000000", Date(0, 5));
    var back := RevivedAsWritten(Store(w), "1700000001", Date(1, 7));
    AsWrittenDescribesLoadDay(Store(w), "1700000001", Date(1, 7));
    if back == Some(w) {
      DescriptionInjective(Running, Date(0, 5), Running, Date(1, 7));
      assert false;
    }
  }

  /** Storing a built workout and reviving the record gives the same workout back. */
  lemma ReviveStored(w: Workout)
    requires WellFormed(w)
    ensures Revived(Store(w)) == Some(w)
  {
    match w.detail
    case RunningDetail(_, _) =>
      assert KindOfTypeName(Store(w).typeName) == Some(Running);
    case CyclingDetail(_, _) =>
      assert KindOfTypeName(Store(w).typeName) == Some(Cycling);
  }

  function Kept(w: Option<Workout>): seq<Workout> {
    if w.Some? then [w.value] else []
  }

  /** The `forEach` of `_getLocalStorage`: every record of a known type revived, in stored order. */
  function ReviveAll(data: seq<StoredRecord>): (ws: seq<Workout>)
    ensures |ws| <= |data|
  {
    if |data| == 0 then []
    else ReviveAll(data[..|data| - 1]) + Kept(Revived(data[|data| - 1]))
  }

  /** Every revived workout is as its constructor built it. */
  lemma {:induction false} ReviveAllWellFormed(data: seq<StoredRecord>)
    ensures AllWellFormed(ReviveAll(data))
  {
    if |data| > 0 {
      var before := ReviveAll(data[..|data| - 1]);
      ReviveAllWellFormed(data[..|data| - 1]);
      match Revived(data[|data| - 1])
      case None =>
        assert ReviveAll(data) == before;
      case Some(w) =>
        assert ReviveAll(data)[..|before|] == before;
    }
  }

  /** The stored records of a known type, in stored order. */
  function KnownRecords(data: seq<StoredRecord>): (rs: seq<StoredRecord>)
    ensures forall i :: 0 <= i < |rs| ==> IsKnownType(rs[i])
  {
    if |data| == 0 then []
    else KnownRecords(data[..|data| - 1])
         + (if IsKnownType(data[|data| - 1]) then [data[|data| - 1]] else [])
  }

  /** What `_getLocalStorage` leaves in the list: nothing for an absent key. */
  function Loaded(stored: Option<seq<StoredRecord>>): seq<Workout> {
    match stored
    case None => []
    case Some(data) => ReviveAll(data)
  }

  lemma StoreAllAppend(ws: seq<Workout>, w: Workout)
    ensures StoreAll(ws + [w]) == StoreAll(ws) + [Store(w)]
  {
    assert (ws + [w])[..|ws|] == ws;
  }

  /**
   * Revival keeps exactly the records of a known type, in their stored order: storing the
   * revived list again gives those records back, type, coordinates, numbers, id, clicks and
   * date included.
   */
  lemma {:induction false} RevivalKeepsKnownRecords(data: seq<StoredRecord>)
    ensures StoreAll(ReviveAll(data)) == KnownRecords(data)
  {
    if |data| > 0 {
      var front, last := data[..|data| - 1], data[|data| - 1];
      RevivalKeepsKnownRecords(front);
      match Revived(last)
      case None =>
        assert ReviveAll(data) == ReviveAll(front);
      case Some(w) =>
        assert ReviveAll(data) == ReviveAll(front) + [w];
        StoreAllAppend(ReviveAll(front), w);
    }
  }

  lemma StoreAllFront(ws: seq<Workout>)
    requires |ws| > 0
    ensures StoreAll(ws)[..|ws| - 1] == StoreAll(ws[..|ws| - 1])
  {
  }

  /** Saving a list of built workouts and loading the snapshot gives the same list back. */
  lemma {:induction false} LoadAfterSave(ws: seq<Workout>)
    requires AllWellFormed(ws)
    ensures Loaded(Some(StoreAll(ws))) == ws
  {
    if |ws| > 0 {
      var front, last := ws[..|ws| - 1], ws[|ws| - 1];
      LoadAfterSave(front);
      StoreAllFront(ws);
      ReviveStored(last);
      assert front + [last] == ws;
    }
  }

  /** The revival loop of `_getLocalStorage`, pushing each revived workout in turn. */
  method Revive(data: seq<StoredRecord>) returns (revived: seq<Workout>)
    ensures revived == ReviveAll(data)
  {
    revived := [];
    var i := 0;
    while i < |data|
      invariant 0 <= i <= |data|
      invariant revived == ReviveAll(data[..i])
    {
      var work := data[i];
      var workout := Revived(work);
      if workout.Some? {
        revived := revived + [workout.value];
      }
      assert data[..i + 1][..i] == data[..i];
      i := i + 1;
    }
    assert data[..|data|] == data;
  }
}
