/**
 * The workout value model: `Workout` and its two variants `Running` and `Cycling`,
 * written as one tagged record. The rate metric (pace or speed) and the description are
 * derived once, when a workout is built, and stored in it.
 */
module Workouts {
  import opened Options
  import opened JsNumbers

  /** The activity type; in the source, the `type` string of the variant. */
  datatype Kind = Running | Cycling

  /** A `[lat, lng]` pair. */
  datatype Coords = Coords(lat: real, lng: real)

  /** A month index as `Date.getMonth()` gives it. */
  type Month = m: int | 0 <= m < 12

  /** A day of the month as `Date.getDate()` gives it. */
  type Day = d: int | 1 <= d <= 31 witness 1

  /** The two parts of a `Date` that the bookkeeping reads. */
  datatype Date = Date(month: Month, day: Day)

  /** The variant-specific field and the metric derived from the shared fields. */
  datatype Detail =
    | RunningDetail(cadence: JsNumber, pace: JsNumber)
    | CyclingDetail(elevationGain: JsNumber, speed: JsNumber)

  datatype Workout = Workout(
    id: string,
    date: Date,
    clicks: int,
    coords: Coords,
    distance: JsNumber,   // km
    duration: JsNumber,   // min
    detail: Detail,
    description: string)
  {
    function Activity(): Kind {
      if detail.RunningDetail? then Running else Cycling
    }
  }

  /** The `type` string of each variant. */
  function TypeName(k: Kind): string {
    match k
    case Running => "running"
    case Cycling => "cycling"
  }

  /** The inverse of `TypeName`, as the `work.type === ...` tests of revival use it. */
  function KindOfTypeName(s: string): (k: Option<Kind>)
    ensures k.Some? <==> s == "running" || s == "cycling"
    ensures k.Some? ==> TypeName(k.value) == s
  {
    if s == "running" then Some(Running)
    else if s == "cycling" then Some(Cycling)
    else None
  }

  /** `calcPace`: minutes per kilometre. */
  function Pace(distance: JsNumber, duration: JsNumber): JsNumber {
    Div(duration, distance)
  }

  /** `calcSpeed`: kilometres per hour, with the duration converted from minutes. */
  function Speed(distance: JsNumber, duration: JsNumber): JsNumber {
    Div(distance, Div(duration, Finite(60.0)))
  }

  /** For validated inputs the pace is the exact positive quotient duration / distance. */
  lemma PaceOfValidInputs(distance: JsNumber, duration: JsNumber)
    requires distance.Finite? && distance.value > 0.0
    requires duration.Finite? && duration.value > 0.0
    ensures Pace(distance, duration) == Finite(duration.value / distance.value)
    ensures Pace(distance, duration).value > 0.0
  {
    DivOfPositives(duration, distance);
  }

  /** For validated inputs the speed is distance / (duration / 60), that is 60 * distance / duration. */
  lemma SpeedOfValidInputs(distance: JsNumber, duration: JsNumber)
    requires distance.Finite? && distance.value > 0.0
    requires duration.Finite? && duration.value > 0.0
    ensures Speed(distance, duration) == Finite(distance.value / (duration.value / 60.0))
    ensures Speed(distance, duration) == Finite(60.0 * distance.value / duration.value)
    ensures Speed(distance, duration).value > 0.0
  {
    var d, t := distance.value, duration.value;
    DivOfPositives(duration, Finite(60.0));
    DivOfPositives(distance, Finite(t / 60.0));
    assert d / (t / 60.0) == 60.0 * d / t by {
      assert (t / 60.0) * (60.0 * d / t) == d;
    }
  }

  /** Pace and speed of the same validated run or ride are reciprocal up to the factor 60. */
  lemma PaceTimesSpeed(distance: JsNumber, duration: JsNumber)
    requires distance.Finite? && distance.value > 0.0
    requires duration.Finite? && duration.value > 0.0
    ensures Pace(distance, duration).value * Speed(distance, duration).value == 60.0
  {
    PaceOfValidInputs(distance, duration);
    SpeedOfValidInputs(distance, duration);
    var d, t := distance.value, duration.value;
    assert (t / d) * (60.0 * d / t) == 60.0;
  }

  // ---------------------------------------------------------------------------
  // The description: "<Type> on <Month> <day>"

  const MONTH_NAMES: seq<string> := [
    "January", "February", "March", "April", "May", "June",
    "July", "August", "September", "October", "November", "December"]

  function MonthName(m: Month): string {
    MONTH_NAMES[m]
  }

  predicate IsLower(c: char) {
    'a' <= c <= 'z'
  }

  /** `toUpperCase` on one character; only ASCII letters are modelled. */
  function UpperCase(c: char): char {
    if IsLower(c) then (c as int - 32) as char else c
  }

  /** `s[0].toUpperCase() + s.slice(1)`. */
  function Capitalize(s: string): (r: string)
    requires |s| > 0
    ensures |r| == |s| && r[1..] == s[1..]
    ensures IsLower(s[0]) ==> r[0] as int == s[0] as int - 32
  {
    [UpperCase(s[0])] + s[1..]
  }

  predicate IsDigit(c: char) {
    '0' <= c <= '9'
  }

  function DigitChar(d: nat): (c: char)
    requires d < 10
    ensures IsDigit(c)
  {
    ('0' as int + d) as char
  }

  function DigitValue(c: char): (d: nat)
    requires IsDigit(c)
    ensures d < 10 && DigitChar(d) == c
  {
    c as int - '0' as int
  }

  /** A number written in decimal without leading zeros, as a template literal writes a day. */
  function DecimalString(n: nat): (s: string)
    ensures |s| > 0
    ensures forall i :: 0 <= i < |s| ==> IsDigit(s[i])
  {
    if n < 10 then [DigitChar(n)] else DecimalString(n / 10) + [DigitChar(n % 10)]
  }

  /** Reads a non-empty string of decimal digits back as a number. */
  function ParseDecimal(s: string): (r: Option<nat>)
    ensures r.Some? ==> |s| > 0
  {
    if |s| == 0 || !IsDigit(s[|s| - 1]) then None
    else if |s| == 1 then Some(DigitValue(s[0]))
    else match ParseDecimal(s[..|s| - 1])
      case None => None
      case Some(v) => Some(10 * v + DigitValue(s[|s| - 1]))
  }

  lemma {:induction false} DecimalRoundTrip(n: nat)
    ensures ParseDecimal(DecimalString(n)) == Some(n)
  {
    if n >= 10 {
      var s := DecimalString(n);
      assert s[..|s| - 1] == DecimalString(n / 10);
      DecimalRoundTrip(n / 10);
      assert DigitValue(s[|s| - 1]) == n % 10;
    }
  }

  /** `_setDescription`: the capitalised type, " on ", the month name, " ", the day. */
  function Describe(k: Kind, d: Date): string {
    Capitalize(TypeName(k)) + " on " + MonthName(d.month) + " " + DecimalString(d.day)
  }

  /** The position of the first space in `s`, or `|s|` when there is none. */
  function IndexOfSpace(s: string): (i: nat)
    ensures i <= |s|
    ensures forall j :: 0 <= j < i ==> s[j] != ' '
    ensures i < |s| ==> s[i] == ' '
  {
    if |s| == 0 || s[0] == ' ' then 0 else 1 + IndexOfSpace(s[1..])
  }

  /** The index of `name` in the month table searched from `from`, if it is there. */
  function MonthIndexFrom(name: string, from: nat): (m: Option<Month>)
    requires from <= 12
    ensures m.Some? ==> MonthName(m.value) == name
    decreases 12 - from
  {
    if from == 12 then None
    else if MONTH_NAMES[from] == name then Some(from)
    else MonthIndexFrom(name, from + 1)
  }

  function LabelKind(word: string): Option<Kind> {
    if word == "Running" then Some(Running)
    else if word == "Cycling" then Some(Cycling)
    else None
  }

  /** Reads a description back into the activity and the date it was built from. */
  function ParseDescription(s: string): Option<(Kind, Date)> {
    if |s| < 11 || s[7..11] != " on " then None
    else
      var kind := LabelKind(s[..7]);
      var rest := s[11..];
      var i := IndexOfSpace(rest);
      if kind.None? || i == |rest| then None
      else
        var month := MonthIndexFrom(rest[..i], 0);
        var day := ParseDecimal(rest[i + 1..]);
        if month.None? || day.None? || !(1 <= day.value <= 31) then None
        else Some((kind.value, Date(month.value, day.value)))
  }

  lemma CapitalizedTypeName(k: Kind)
    ensures Capitalize(TypeName(k)) == if k == Running then "Running" else "Cycling"
  {
    var t := TypeName(k);
    assert UpperCase(t[0]) == if k == Running then 'R' else 'C';
  }

  lemma MonthNamesDistinct(m: Month)
    ensures forall j :: 0 <= j < m ==> MONTH_NAMES[j] != MONTH_NAMES[m]
  {
  }

  lemma MonthNameHasNoSpace(m: Month)
    ensures forall j :: 0 <= j < |MonthName(m)| ==> MonthName(m)[j] != ' '
  {
  }

  lemma {:induction false} MonthIndexFinds(m: Month, from: nat)
    requires from <= m
    ensures MonthIndexFrom(MONTH_NAMES[m], from) == Some(m)
    decreases m - from
  {
    MonthNamesDistinct(m);
    if from < m {
      assert MONTH_NAMES[from] != MONTH_NAMES[m];
      MonthIndexFinds(m, from + 1);
    }
  }

  lemma {:induction false} IndexOfSpaceAfterWord(a: string, b: string)
    requires forall j :: 0 <= j < |a| ==> a[j] != ' '
    ensures IndexOfSpace(a + " " + b) == |a|
  {
    if |a| > 0 {
      assert (a + " " + b)[1..] == a[1..] + " " + b;
      IndexOfSpaceAfterWord(a[1..], b);
    }
  }

  /** Parsing a description assembled from parts that each read back on their own. */
  lemma ParseAssembled(k: Kind, heading: string, name: string, m: Month, digits: string, day: Day)
    requires |heading| == 7 && LabelKind(heading) == Some(k)
    requires forall j :: 0 <= j < |name| ==> name[j] != ' '
    requires MonthIndexFrom(name, 0) == Some(m)
    requires ParseDecimal(digits) == Some(day)
    ensures ParseDescription(heading + " on " + name + " " + digits) == Some((k, Date(m, day)))
  {
    var rest := name + " " + digits;
    var s := heading + " on " + rest;
    assert s == heading + " on " + name + " " + digits;
    assert s[..7] == heading && s[7..11] == " on " && s[11..] == rest;
    IndexOfSpaceAfterWord(name, digits);
    assert rest[..|name|] == name && rest[|name| + 1..] == digits;
  }

  /** The description determines the activity and the date: parsing it gives them back. */
  lemma DescriptionRoundTrip(k: Kind, d: Date)
    ensures ParseDescription(Describe(k, d)) == Some((k, d))
  {
    CapitalizedTypeName(k);
    MonthNameHasNoSpace(d.month);
    MonthIndexFinds(d.month, 0);
    DecimalRoundTrip(d.day);
    ParseAssembled(k, Capitalize(TypeName(k)), MonthName(d.month), d.month, DecimalString(d.day), d.day);
  }

  /** Two workouts with the same description have the same activity, month and day. */
  lemma DescriptionInjective(k1: Kind, d1: Date, k2: Kind, d2: Date)
    requires Describe(k1, d1) == Describe(k2, d2)
    ensures k1 == k2 && d1 == d2
  {
    DescriptionRoundTrip(k1, d1);
    DescriptionRoundTrip(k2, d2);
  }

  // ---------------------------------------------------------------------------
  // Construction

  /** The fields a built workout derives from its other fields. */
  predicate WellFormed(w: Workout) {
    && w.description == Describe(w.Activity(), w.date)
    && match w.detail
       case RunningDetail(_, pace) => pace == Pace(w.distance, w.duration)
       case CyclingDetail(_, speed) => speed == Speed(w.distance, w.duration)
  }

  /** Every workout of the list is as its constructor built it (stated from the back, like the pushes that build the list). */
  predicate AllWellFormed(ws: seq<Workout>) {
    |ws| == 0 || (AllWellFormed(ws[..|ws| - 1]) && WellFormed(ws[|ws| - 1]))
  }

  /**
   * `new Running(coords, distance, duration, cadence)`, with the clock's id and date
   * given: no clicks yet, the pace and the description derived at once.
   */
  function NewRunning(coords: Coords, distance: JsNumber, duration: JsNumber, cadence: JsNumber,
                      id: string, now: Date): (w: Workout)
    ensures WellFormed(w) && w.Activity() == Running && w.clicks == 0
    ensures w.id == id && w.date == now && w.coords == coords
    ensures w.distance == distance && w.duration == duration && w.detail.cadence == cadence
  {
    Workout(id, now, 0, coords, distance, duration,
            RunningDetail(cadence, Pace(distance, duration)), Describe(Running, now))
  }

  /** `new Cycling(coords, distance, duration, elevationGain)`, likewise with the speed. */
  function NewCycling(coords: Coords, distance: JsNumber, duration: JsNumber, elevationGain: JsNumber,
                      id: string, now: Date): (w: Workout)
    ensures WellFormed(w) && w.Activity() == Cycling && w.clicks == 0
    ensures w.id == id && w.date == now && w.coords == coords
    ensures w.distance == distance && w.duration == duration && w.detail.elevationGain == elevationGain
  {
    Workout(id, now, 0, coords, distance, duration,
            CyclingDetail(elevationGain, Speed(distance, duration)), Describe(Cycling, now))
  }

  /** The constructor the form's activity type selects; `extra` is the cadence or the elevation gain. */
  function Create(k: Kind, coords: Coords, distance: JsNumber, duration: JsNumber, extra: JsNumber,
                  id: string, now: Date): (w: Workout)
    ensures WellFormed(w) && w.Activity() == k && w.clicks == 0 && w.id == id
    ensures w.coords == coords && w.date == now && w.distance == distance && w.duration == duration
    ensures Extra(w) == extra
  {
    match k
    case Running => NewRunning(coords, distance, duration, extra, id, now)
    case Cycling => NewCycling(coords, distance, duration, extra, id, now)
  }

  /** The variant field the form and the store call cadence or elevation gain. */
  function Extra(w: Workout): JsNumber {
    match w.detail
    case RunningDetail(cadence, _) => cadence
    case CyclingDetail(elevationGain, _) => elevationGain
  }

  /**
   * A workout built from valid form input carries the exact pace or speed of its inputs
   * and a description that reads back as its type and date.
   */
  lemma BuiltWorkoutMetrics(k: Kind, coords: Coords, distance: JsNumber, duration: JsNumber,
                            extra: JsNumber, id: string, now: Date)
    requires distance.Finite? && distance.value > 0.0
    requires duration.Finite? && duration.value > 0.0
    ensures var w := Create(k, coords, distance, duration, extra, id, now);
      && (k == Running ==> w.detail.pace == Finite(duration.value / distance.value))
      && (k == Cycling ==> w.detail.speed == Finite(60.0 * distance.value / duration.value))
      && ParseDescription(w.description) == Some((k, now))
  {
    PaceOfValidInputs(distance, duration);
    SpeedOfValidInputs(distance, duration);
    DescriptionRoundTrip(k, now);
  }
}
