/** The workout entities: a running or cycling session recorded at a map
    position, with its derived metric (pace or speed), its id and its
    human-readable description, all fixed when the workout is created. */
module Workouts {

  import opened Decimal

  /** A map position, `[lat, lng]`. */
  datatype Coords = Coords(lat: real, lng: real)

  /** A month as `Date.prototype.getMonth` gives it: 0 is January. */
  type MonthIndex = m: nat | m < 12

  /** A day of the month as `Date.prototype.getDate` gives it. */
  type DayOfMonth = d: nat | 1 <= d <= 31 witness 1

  /** The moment a workout is created: `Date.now()` in milliseconds, and
      the month and day of the `Date` taken at the same moment. */
  datatype Instant = Instant(millis: nat, month: MonthIndex, day: DayOfMonth)

  /** A recorded workout. The fields shared by both kinds are those of the
      base entity; `cadence`/`pace` belong to running, `elevation`/`speed`
      to cycling. */
  datatype Workout =
    | Running(id: string, date: Instant, coords: Coords, distance: real, duration: real,
              description: string, cadence: real, pace: real)
    | Cycling(id: string, date: Instant, coords: Coords, distance: real, duration: real,
              description: string, elevation: real, speed: real)
  {
    /** The `type` tag each kind carries. */
    function Type(): (t: string)
      ensures |t| > 0 && 'a' <= t[0] <= 'z'
      ensures t == "running" <==> Running?
    {
      if Running? then "running" else "cycling"
    }
  }

  /** How many trailing digits of the timestamp make up an id. */
  const IdLength: nat := 10

  /** The id: the last ten characters of the timestamp's decimal text. */
  function IdOf(millis: nat): (id: string)
    ensures 1 <= |id| <= IdLength && AllDigits(id)
  {
    SliceFromEndValue(millis, IdLength);
    SliceFromEnd(NatToString(millis), IdLength)
  }

  /** The id denotes the timestamp modulo 10^10. */
  lemma IdValue(millis: nat)
    ensures Value(IdOf(millis)) == millis % Pow10(IdLength)
  {
    SliceFromEndValue(millis, IdLength);
  }

  /** Workouts created at timestamps that differ modulo 10^10 always get
      different ids; for timestamps of ten digits or more (every instant
      from 12 January 1970 on) the converse holds too, so two ids collide
      exactly when the timestamps agree in their last ten digits. */
  lemma IdsCollideIff(t1: nat, t2: nat)
    ensures IdOf(t1) == IdOf(t2) ==> t1 % Pow10(IdLength) == t2 % Pow10(IdLength)
    ensures t1 >= Pow10(IdLength - 1) && t2 >= Pow10(IdLength - 1) ==>
              (IdOf(t1) == IdOf(t2) <==> t1 % Pow10(IdLength) == t2 % Pow10(IdLength))
  {
    IdValue(t1);
    IdValue(t2);
    if t1 >= Pow10(IdLength - 1) && t2 >= Pow10(IdLength - 1) {
      LongEnough(t1, IdLength - 1);
      LongEnough(t2, IdLength - 1);
      if t1 % Pow10(IdLength) == t2 % Pow10(IdLength) {
        ValueInjective(IdOf(t1), IdOf(t2));
      }
    }
  }

  const Months: seq<string> := ["January", "February", "March", "April", "May", "June", "July",
                                "August", "September", "October", "November", "December"]

  function MonthName(m: MonthIndex): (name: string)
    ensures |name| > 0 && ' ' !in name
  {
    Months[m]
  }

  lemma MonthNamesDistinct(m1: MonthIndex, m2: MonthIndex)
    ensures MonthName(m1) == MonthName(m2) ==> m1 == m2
  {
  }

  /** `toUpperCase` of one character, for the ASCII letters the type tags use. */
  function UpperChar(c: char): (u: char)
    ensures 'a' <= c <= 'z' ==> 'A' <= u <= 'Z' && u as int == c as int - 32
    ensures !('a' <= c <= 'z') ==> u == c
  {
    if 'a' <= c <= 'z' then (c as int - 32) as char else c
  }

  /** The first character upper-cased, the rest unchanged. */
  function Capitalize(s: string): (r: string)
    requires |s| > 0
    ensures |r| == |s| && r[0] == UpperChar(s[0]) && r[1..] == s[1..]
  {
    [UpperChar(s[0])] + s[1..]
  }

  /** The description: "<Type> on <Month> <Day>". */
  function Describe(kind: string, date: Instant): (d: string)
    requires |kind| > 0
    ensures |d| == |kind| + 5 + |MonthName(date.month)| + |NatToString(date.day)|
    ensures d[0] == UpperChar(kind[0])
    ensures d[|d| - |NatToString(date.day)|..] == NatToString(date.day)
  {
    Capitalize(kind) + " on " + MonthName(date.month) + " " + NatToString(date.day)
  }

  /** Position of the first space in `s`, or `|s|` when there is none. */
  function IndexOfSpace(s: string): (k: nat)
    ensures k <= |s|
  {
    if s == [] || s[0] == ' ' then 0 else 1 + IndexOfSpace(s[1..])
  }

  lemma {:induction false} IndexOfSpaceJoin(a: string, b: string)
    requires ' ' !in a
    ensures IndexOfSpace(a + " " + b) == |a|
  {
    if a != [] {
      assert a[0] in a;
      assert ' ' !in a[1..] by {
        forall i | 0 <= i < |a| - 1 ensures a[1..][i] != ' ' {
          assert a[1..][i] == a[i + 1] && a[i + 1] in a;
        }
      }
      IndexOfSpaceJoin(a[1..], b);
      assert (a + " " + b)[1..] == a[1..] + " " + b;
    }
  }

  /** `a + " " + b` splits uniquely at its first space when `a` has none. */
  lemma SplitAtSpace(a1: string, b1: string, a2: string, b2: string)
    requires ' ' !in a1 && ' ' !in a2
    requires a1 + " " + b1 == a2 + " " + b2
    ensures a1 == a2 && b1 == b2
  {
    var s1, s2 := a1 + " " + b1, a2 + " " + b2;
    IndexOfSpaceJoin(a1, b1);
    IndexOfSpaceJoin(a2, b2);
    assert a1 == s1[..|a1|] && a2 == s2[..|a2|];
    assert b1 == s1[|a1| + 1..] && b2 == s2[|a2| + 1..];
  }

  /** A description is the capitalised type, " on ", then month and day. */
  lemma DescribeParts(kind: string, date: Instant)
    requires |kind| > 0
    ensures Describe(kind, date)[..|kind|] == Capitalize(kind)
    ensures Describe(kind, date)[|kind|..|kind| + 4] == " on "
    ensures Describe(kind, date)[|kind| + 4..] == MonthName(date.month) + " " + NatToString(date.day)
  {
    var head, tail := Capitalize(kind) + " on ", MonthName(date.month) + " " + NatToString(date.day);
    assert Describe(kind, date) == head + tail;
    assert head[..|kind|] == Capitalize(kind);
  }

  /** The description of a workout determines its type, month and day. */
  lemma DescriptionDeterminesTypeAndDay(w1: Workout, w2: Workout)
    requires Describe(w1.Type(), w1.date) == Describe(w2.Type(), w2.date)
    ensures w1.Type() == w2.Type()
    ensures w1.date.month == w2.date.month && w1.date.day == w2.date.day
  {
    DescribeParts(w1.Type(), w1.date);
    DescribeParts(w2.Type(), w2.date);
    assert Capitalize(w1.Type()) == Capitalize(w2.Type());
    SplitAtSpace(MonthName(w1.date.month), NatToString(w1.date.day),
                 MonthName(w2.date.month), NatToString(w2.date.day));
    MonthNamesDistinct(w1.date.month, w2.date.month);
    NatToStringInjective(w1.date.day, w2.date.day);
  }

  /** `_calcPace`: minutes per kilometre. */
  function CalcPace(distance: real, duration: real): (pace: real)
    requires distance != 0.0
    ensures pace * distance == duration
  {
    duration / distance
  }

  /** `_calcSpeed`: kilometres per hour from a duration in minutes. */
  function CalcSpeed(distance: real, duration: real): (speed: real)
    requires duration != 0.0
    ensures speed * duration == distance * 60.0
  {
    distance / (duration / 60.0)
  }

  /** Pace and speed of the same distance and duration are reciprocal up to
      the 60 minutes in an hour, and both are positive. */
  lemma PaceSpeedReciprocal(distance: real, duration: real)
    requires distance > 0.0 && duration > 0.0
    ensures CalcPace(distance, duration) > 0.0 && CalcSpeed(distance, duration) > 0.0
    ensures CalcPace(distance, duration) * CalcSpeed(distance, duration) == 60.0
  {
    var p, s := CalcPace(distance, duration), CalcSpeed(distance, duration);
    assert p == duration / distance;
    assert s == 60.0 * distance / duration;
    assert p * s == (duration * 60.0 * distance) / (distance * duration);
  }

  /** The measured part of a workout built from validated input: positive
      distance and duration, a positive cadence for running, and the metric
      `_calcPace` or `_calcSpeed` computes from them. */
  predicate Measured(w: Workout) {
    && w.distance > 0.0 && w.duration > 0.0
    && (w.Running? ==> w.cadence > 0.0 && w.pace == CalcPace(w.distance, w.duration))
    && (w.Cycling? ==> w.speed == CalcSpeed(w.distance, w.duration))
  }

  /** What every workout built from validated input satisfies: it is
      measured, and its id and description are those of its instant. */
  predicate WellFormed(w: Workout) {
    && Measured(w)
    && w.id == IdOf(w.date.millis)
    && w.description == Describe(w.Type(), w.date)
  }

  /** The metric of a measured workout is positive and consistent with its
      distance and duration: pace in minutes per kilometre for running,
      speed in kilometres per hour for cycling. */
  lemma MeasuredMetric(w: Workout)
    requires Measured(w)
    ensures w.Running? ==> w.pace > 0.0 && w.pace * w.distance == w.duration
    ensures w.Cycling? ==> w.speed > 0.0 && w.speed * w.duration == w.distance * 60.0
  {
    PaceSpeedReciprocal(w.distance, w.duration);
  }

  /** `new Running(coords, distance, duration, cadence)` at instant `now`. */
  function NewRunning(coords: Coords, distance: real, duration: real, cadence: real, now: Instant): (w: Workout)
    requires distance != 0.0
    ensures w.Running? && w.Type() == "running"
    ensures w.coords == coords && w.distance == distance && w.duration == duration
    ensures w.cadence == cadence && w.date == now
    ensures w.id == IdOf(now.millis) && w.description == Describe("running", now)
    ensures w.pace == CalcPace(distance, duration)
    ensures distance > 0.0 && duration > 0.0 && cadence > 0.0 ==> WellFormed(w)
  {
    Running(IdOf(now.millis), now, coords, distance, duration, Describe("running", now),
            cadence, CalcPace(distance, duration))
  }

  /** `new Cycling(coords, distance, duration, elevation)` at instant `now`. */
  function NewCycling(coords: Coords, distance: real, duration: real, elevation: real, now: Instant): (w: Workout)
    requires duration != 0.0
    ensures w.Cycling? && w.Type() == "cycling"
    ensures w.coords == coords && w.distance == distance && w.duration == duration
    ensures w.elevation == elevation && w.date == now
    ensures w.id == IdOf(now.millis) && w.description == Describe("cycling", now)
    ensures w.speed == CalcSpeed(distance, duration)
    ensures distance > 0.0 && duration > 0.0 ==> WellFormed(w)
  {
    Cycling(IdOf(now.millis), now, coords, distance, duration, Describe("cycling", now),
            elevation, CalcSpeed(distance, duration))
  }
}
