/** The values the integration derives from a fetched timetable: whether a
    class is in progress, the next class, the next lesson to wake up for,
    today's school hours, and the per-subject lesson count. Each takes the
    timetable the backend returned as an input sequence. */
module Derived {
  import opened Wrappers
  import opened Seqs
  import opened Lessons
  import opened LessonFilter
  import opened Projection

  // ----- _is_class -----

  /** A lesson that passes the filter is in progress at `now`; both bounds
      are strict. */
  ghost predicate InProgress(l: Lesson, cfg: Config, now: int)
  {
    l.start < now < l.end && CheckLesson(l, cfg, false)
  }

  /** `_is_class`: whether some lesson of today's timetable is in progress. */
  method IsClass(table: seq<Lesson>, cfg: Config, now: int) returns (r: bool)
    ensures r <==> exists i :: 0 <= i < |table| && InProgress(table[i], cfg, now)
  {
    for i := 0 to |table|
      invariant forall j :: 0 <= j < i ==> !InProgress(table[j], cfg, now)
    {
      if table[i].start < now < table[i].end && CheckLesson(table[i], cfg, false) {
        return true;
      }
    }
    return false;
  }

  // ----- _next_class -----

  /** The lessons that pass the filter and start strictly after `now`, in
      table order. */
  function Upcoming(table: seq<Lesson>, cfg: Config, now: int): (r: seq<Lesson>)
    ensures forall l :: l in r <==> l in table && l.start > now && CheckLesson(l, cfg, false)
    ensures forall l :: multiset(r)[l] ==
                        if l.start > now && CheckLesson(l, cfg, false) then multiset(table)[l] else 0
    ensures PicksAt(r, table, FilterPositions(table, StartsAfter(cfg, now)))
  {
    Filter(table, StartsAfter(cfg, now))
  }

  /** The test `_next_class` applies to each lesson. */
  function StartsAfter(cfg: Config, now: int): Lesson -> bool
  {
    (l: Lesson) => l.start > now && CheckLesson(l, cfg, false)
  }

  /** `_next_class`: the upcoming lesson that starts first (its start is the
      sensor value, its JSON the sensor's attribute), None when there is none. */
  function NextClass(table: seq<Lesson>, cfg: Config, now: int): (r: Option<Lesson>)
    ensures r.None? <==> forall l :: l in table && CheckLesson(l, cfg, false) ==> l.start <= now
    ensures r.Some? ==> r.value in table && CheckLesson(r.value, cfg, false) && r.value.start > now
    ensures r.Some? ==> forall l :: l in table && CheckLesson(l, cfg, false) && l.start > now ==>
                                     r.value.start <= l.start
  {
    var candidates := Upcoming(table, cfg, now);
    if |candidates| == 0 then None
    else
      SortByEnds(candidates, StartOf);
      Some(SortBy(candidates, StartOf)[0])
  }

  /** What `_next_class` writes besides its value: the key set of the
      next class's JSON (None for the "JSON data is disabled" notice) and
      the exclusion list that call of `get_lesson_json` leaves. */
  datatype ClassJson = ClassJson(keys: Option<set<Key>>, excludeData: seq<string>)

  /** `next_class_json` after `_next_class`; None when there is no next
      class, which leaves the attribute and the list untouched. */
  function NextClassJson(table: seq<Lesson>, cfg: Config, now: int): (r: Option<ClassJson>)
    ensures r.Some? <==> NextClass(table, cfg, now).Some?
    ensures r.Some? ==> (r.value.keys.None? <==> !cfg.generateJson)
    ensures r.Some? && r.value.keys.Some? ==>
              var l := NextClass(table, cfg, now).value;
              && HasCoreKeys(r.value.keys.value)
              && (Key.Teachers in r.value.keys.value <==> TeachersKey !in cfg.excludeData && l.teachers.Granted?)
    ensures r.Some? ==> r.value.keys == JsonKeys(NextClass(table, cfg, now).value, cfg, false)
    ensures r.Some? ==>
              var l := NextClass(table, cfg, now).value;
              r.value.excludeData ==
                if cfg.generateJson && TeachersKey !in cfg.excludeData && l.teachers.NoRight?
                then cfg.excludeData + [TeachersKey] else cfg.excludeData
  {
    match NextClass(table, cfg, now)
    case None => None
    case Some(l) => Some(ClassJson(JsonKeys(l, cfg, false), ExcludeAfterJson(l, cfg, false)))
  }

  /** Of several upcoming lessons that share the least start, `_next_class`
      picks the first in timetable order, since Python's sort is stable:
      the next class is the first lesson of the timetable that passes the
      test and starts when it does. */
  lemma NextClassIsFirstOfTies(table: seq<Lesson>, cfg: Config, now: int)
    requires NextClass(table, cfg, now).Some?
    ensures var l := NextClass(table, cfg, now).value;
            var k := FirstWhere(table, KeyedAt(StartsAfter(cfg, now), StartOf, l.start));
            k < |table| && table[k] == l
  {
    SortedFilterHead(table, StartsAfter(cfg, now), StartOf);
  }

  // ----- _next_lesson_to_wake_up -----

  /** The start times of the given lessons, in order. */
  function StartTimes(ls: seq<Lesson>): (r: seq<int>)
    ensures |r| == |ls|
    ensures forall t :: t in r <==> exists l :: l in ls && l.start == t
  {
    if |ls| == 0 then []
    else
      assert ls == [ls[0]] + ls[1..];
      [ls[0].start] + StartTimes(ls[1..])
  }

  /** The end times of the given lessons, in order. */
  function EndTimes(ls: seq<Lesson>): (r: seq<int>)
    ensures |r| == |ls|
    ensures forall t :: t in r <==> exists l :: l in ls && l.end == t
  {
    if |ls| == 0 then []
    else
      assert ls == [ls[0]] + ls[1..];
      [ls[0].end] + EndTimes(ls[1..])
  }

  /** The loop over the sorted start times: `day` starts as `now`; a time
      before `day` moves `day` to the midnight after `now` and is dropped,
      every other time is kept. */
  function WakeScan(times: seq<int>, day: int, now: int): (r: seq<int>)
    ensures |r| <= |times|
    ensures forall t :: t in r ==> t in times && (t >= day || t >= NextMidnight(now))
  {
    if |times| == 0 then []
    else if times[0] < day then WakeScan(times[1..], NextMidnight(now), now)
    else [times[0]] + WakeScan(times[1..], day, now)
  }

  /** Once `day` is the next midnight it stays there: exactly the times from
      that midnight on are kept, whatever their order. */
  lemma {:induction false} WakeScanFromMidnight(times: seq<int>, now: int)
    ensures forall t :: t in WakeScan(times, NextMidnight(now), now) <==> t in times && t >= NextMidnight(now)
  {
    if |times| > 0 {
      WakeScanFromMidnight(times[1..], now);
      assert times == [times[0]] + times[1..];
    }
  }

  /** The first time the scan keeps from: the next midnight when some time
      lies before `now`, otherwise `now`. */
  ghost function TimesThreshold(times: seq<int>, now: int): int
  {
    if exists t :: t in times && t < now then NextMidnight(now) else now
  }

  /** Over sorted times, the scan keeps the times from `now` on when no time
      lies before `now`, and otherwise only the times from the next midnight on. */
  lemma {:induction false} WakeScanSorted(times: seq<int>, now: int)
    requires SortedBy(times, Identity)
    ensures forall t :: t in WakeScan(times, now, now) <==> t in times && t >= TimesThreshold(times, now)
  {
    if |times| > 0 {
      assert times == [times[0]] + times[1..];
      if times[0] < now {
        WakeScanFromMidnight(times[1..], now);
        assert times[0] in times && times[0] < NextMidnight(now);
      } else {
        assert SortedBy(times[1..], Identity) by {
          forall i, j | 0 <= i < j < |times[1..]|
            ensures times[1..][i] <= times[1..][j]
          {
            assert Identity(times[i + 1]) <= Identity(times[j + 1]);
          }
        }
        WakeScanSorted(times[1..], now);
        forall t | t in times
          ensures t >= now
        {
          var j :| 0 <= j < |times| && times[j] == t;
          assert Identity(times[0]) <= Identity(times[j]);
        }
      }
    }
  }

  /** The earliest of `times`, None when there is none. */
  function Earliest(times: seq<int>): (r: Option<int>)
    ensures r.None? <==> |times| == 0
    ensures r.Some? ==> r.value in times && forall t :: t in times ==> r.value <= t
  {
    if |times| == 0 then None
    else
      SortByEnds(times, Identity);
      Some(SortBy(times, Identity)[0])
  }

  /** The latest of `times`, None when there is none. */
  function Latest(times: seq<int>): (r: Option<int>)
    ensures r.None? <==> |times| == 0
    ensures r.Some? ==> r.value in times && forall t :: t in times ==> t <= r.value
  {
    if |times| == 0 then None
    else
      SortByEnds(times, Identity);
      Some(SortBy(times, Identity)[|times| - 1])
  }

  /** The wake-up time over plain start times: sort, scan, and take the
      first kept time. */
  function WakeFromTimes(times: seq<int>, now: int): (r: Option<int>)
    ensures var th := TimesThreshold(times, now);
            && (r.None? <==> forall t :: t in times ==> t < th)
            && (r.Some? ==> r.value in times && r.value >= th)
            && (r.Some? ==> forall t :: t in times && t >= th ==> r.value <= t)
  {
    var sorted := SortBy(times, Identity);
    WakeScanSorted(sorted, now);
    SortByMembers(times, Identity);
    assert TimesThreshold(sorted, now) == TimesThreshold(times, now);
    var kept := WakeScan(sorted, now, now);
    Earliest(kept)
  }

  /** The day rollover: when one of the lessons has already started, the
      rest of today is skipped and only lessons from the next midnight on
      count; otherwise every lesson from `now` on counts. */
  ghost function WakeThreshold(ls: seq<Lesson>, now: int): int
  {
    if exists l :: l in ls && l.start < now then NextMidnight(now) else now
  }

  /** `_next_lesson_to_wake_up`: the earliest start, among lessons that pass
      the filter, at or after the wake threshold; None when there is none. */
  function NextWakeUp(table: seq<Lesson>, cfg: Config, now: int): (r: Option<int>)
    ensures var passing := PassingLessons(table, cfg, false);
            var th := WakeThreshold(passing, now);
            && (r.None? <==> forall l :: l in passing ==> l.start < th)
            && (r.Some? ==> r.value >= th && exists l :: l in passing && l.start == r.value)
            && (r.Some? ==> forall l :: l in passing && l.start >= th ==> r.value <= l.start)
  {
    var passing := PassingLessons(table, cfg, false);
    WakeOverLessons(passing, now);
    WakeFromTimes(StartTimes(passing), now)
  }

  /** The wake-up time over the start times, read back as a statement about
      the lessons they come from. */
  lemma WakeOverLessons(ls: seq<Lesson>, now: int)
    ensures var r := WakeFromTimes(StartTimes(ls), now);
            var th := WakeThreshold(ls, now);
            && (r.None? <==> forall l :: l in ls ==> l.start < th)
            && (r.Some? ==> r.value >= th && exists l :: l in ls && l.start == r.value)
            && (r.Some? ==> forall l :: l in ls && l.start >= th ==> r.value <= l.start)
  {
    var starts := StartTimes(ls);
    var r := WakeFromTimes(starts, now);
    var th := WakeThreshold(ls, now);
    assert th == TimesThreshold(starts, now) by {
      if exists l :: l in ls && l.start < now {
        var l :| l in ls && l.start < now;
        assert l.start in starts;
      }
    }
    if r.None? {
      forall l | l in ls
        ensures l.start < th
      {
        assert l.start in starts;
      }
    } else {
      assert r.value in starts;
      forall l | l in ls && l.start >= th
        ensures r.value <= l.start
      {
        assert l.start in starts;
      }
    }
  }

  // ----- _today -----

  /** `_today`: the earliest start and the latest end over today's lessons
      that pass the filter; both None exactly when no lesson passes. */
  function Today(table: seq<Lesson>, cfg: Config): (r: (Option<int>, Option<int>))
    ensures var passing := PassingLessons(table, cfg, false);
            && (r.0.None? <==> |passing| == 0)
            && (r.1.None? <==> |passing| == 0)
            && (r.0.Some? ==> (exists l :: l in passing && l.start == r.0.value)
                              && forall l :: l in passing ==> r.0.value <= l.start)
            && (r.1.Some? ==> (exists l :: l in passing && l.end == r.1.value)
                              && forall l :: l in passing ==> l.end <= r.1.value)
  {
    var passing := PassingLessons(table, cfg, false);
    var starts := StartTimes(passing);
    var ends := EndTimes(passing);
    if |passing| == 0 then (None, None)
    else
      EarliestStart(passing);
      LatestEnd(passing);
      (Earliest(starts), Latest(ends))
  }

  /** The earliest start time is that of one of the lessons, and none of
      them starts before it. */
  lemma EarliestStart(ls: seq<Lesson>)
    requires |ls| > 0
    ensures var e := Earliest(StartTimes(ls));
            && e.Some?
            && (exists l :: l in ls && l.start == e.value)
            && forall l :: l in ls ==> e.value <= l.start
  {
    var starts := StartTimes(ls);
    assert Earliest(starts).value in starts;
    forall l | l in ls
      ensures Earliest(starts).value <= l.start
    {
      assert l.start in starts;
    }
  }

  /** The latest end time is that of one of the lessons, and none of them
      ends after it. */
  lemma LatestEnd(ls: seq<Lesson>)
    requires |ls| > 0
    ensures var e := Latest(EndTimes(ls));
            && e.Some?
            && (exists l :: l in ls && l.end == e.value)
            && forall l :: l in ls ==> l.end <= e.value
  {
    var ends := EndTimes(ls);
    assert Latest(ends).value in ends;
    forall l | l in ls
      ensures l.end <= Latest(ends).value
    {
      assert l.end in ends;
    }
  }

  /** A lesson of today that has already started (`early`) makes the scan
      skip today's later lessons (`later`): the wake-up is the lesson of a
      following day (`tomorrow`). With `now` at 10:00, lessons at 08:00 and
      13:00 today and 09:00 tomorrow, the wake-up is 09:00 tomorrow. */
  lemma WakeSkipsRestOfDay(early: int, later: int, tomorrow: int, now: int)
    requires early < now <= later < NextMidnight(now) <= tomorrow
    ensures WakeFromTimes([early, later, tomorrow], now) == Some(tomorrow)
  {
    var times := [early, later, tomorrow];
    assert times[0] in times;
    assert TimesThreshold(times, now) == NextMidnight(now);
    var r := WakeFromTimes(times, now);
    assert times[2] in times;
    assert r.value in times;
  }

  /** The example above on minutes of day 0. */
  lemma WakeAtTenExample()
    ensures WakeFromTimes([480, 780, 1980], 600) == Some(1980)
  {
    assert NextMidnight(600) == 1440;
    WakeSkipsRestOfDay(480, 780, 1980, 600);
  }

  // ----- _next_day_json -----

  const JsonDisabledMessage: string := "JSON data is disabled - activate it in the options"

  /** The JSON text of the wake-up day: absent without a wake-up time, the
      fixed notice when JSON is off, otherwise one dictionary (given by its
      key set) per lesson of that day that passes the filter, together with
      the exclusion list the loop leaves behind. */
  datatype DayJson = NoWakeUp | Disabled(message: string) | DayLessons(lessons: seq<set<Key>>, excludeData: seq<string>)

  /** `_next_day_json`; `dayTable` is what the backend returns for the day
      of the wake-up time. The lessons are rendered one after another, so a
      lesson refused its teachers keeps them out of every later lesson's
      JSON and puts "teachers" on the exclusion list. */
  function NextDayJson(wake: Option<int>, dayTable: seq<Lesson>, cfg: Config): (r: DayJson)
    ensures r.NoWakeUp? <==> wake.None?
    ensures r.Disabled? <==> wake.Some? && !cfg.generateJson
    ensures r.Disabled? ==> r.message == JsonDisabledMessage
    ensures r.DayLessons? ==> |r.lessons| == |PassingLessons(dayTable, cfg, false)|
    ensures r.DayLessons? ==>
              forall i :: 0 <= i < |r.lessons| ==> HasCoreKeys(r.lessons[i]) && SubjectId !in r.lessons[i]
    ensures r.DayLessons? ==>
              var passing := PassingLessons(dayTable, cfg, false);
              forall i :: 0 <= i < |r.lessons| ==>
                (Key.Teachers in r.lessons[i] <==>
                   TeachersKey !in cfg.excludeData && passing[i].teachers.Granted? && NoRefusalBefore(passing, i))
    ensures r.DayLessons? ==>
              var passing := PassingLessons(dayTable, cfg, false);
              forall i :: 0 <= i < |r.lessons| ==>
                && SingleOutsideTeachers(r.lessons[i], passing[i], cfg, false)
                && (OriginalTeachers in r.lessons[i] <==>
                      TeachersKey !in cfg.excludeData && passing[i].originalTeachers.Some? && NoRefusalBefore(passing, i))
    ensures r.DayLessons? ==>
              var passing := PassingLessons(dayTable, cfg, false);
              r.excludeData == if TeachersKey !in cfg.excludeData && !NoRefusalBefore(passing, |passing|)
                               then cfg.excludeData + [TeachersKey] else cfg.excludeData
  {
    if wake.None? then NoWakeUp
    else if !cfg.generateJson then Disabled(JsonDisabledMessage)
    else
      var rendered := RenderEach(PassingLessons(dayTable, cfg, false), cfg, false);
      DayLessons(rendered.keys, rendered.excludeData)
  }
}
