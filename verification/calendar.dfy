/** `_get_events` and `_get_events_in_timerange`: calendar entries built
    from the timetable, and the notification snapshot collected alongside. */
module Calendar {
  import opened Wrappers
  import opened Seqs
  import opened Lessons
  import opened LessonFilter
  import opened Projection

  const CancelledPrefix: string := "Cancelled: "
  const RoomChangePrefix: string := "Room change: "

  /** `calendar_room` modes that put a room into the event's location. */
  const RoomLongName: string := "Room long name"
  const RoomShortName: string := "Room short name"
  const RoomShortLongName: string := "Room short-long name"

  /** `calendar_description` modes that give the event a description. */
  const DescriptionJson: string := "JSON"
  const DescriptionLessonInfo: string := "Lesson Info"

  /** What an event's description holds: the lesson's forced JSON (by its
      key set) or the lesson's information text. */
  datatype Description = JsonDescription(keys: set<Key>) | LessonInfo(text: string)

  datatype CalendarEvent = CalendarEvent(
    summary: string,
    start: int,
    end: int,
    description: Option<Description>,
    location: Option<string>
  )

  /** The primary subject's long or short name, by `calendar_long_name`. */
  function SubjectLabel(l: Lesson, cfg: Config): string
    requires |l.subjects| > 0
  {
    if cfg.calendarLongName then l.subjects[0].longName else l.subjects[0].name
  }

  /** Whether the summary announces a room change: only when the option is
      on and the lesson has original rooms. */
  predicate ShowsRoomChange(l: Lesson, cfg: Config)
  {
    cfg.calendarShowRoomChange && |l.originalRooms| > 0
  }

  /** The event summary: the subject label, after "Room change: " when a
      room change is shown, all after "Cancelled: " for a cancelled lesson. */
  function Summary(l: Lesson, cfg: Config): (r: string)
    requires |l.subjects| > 0
    ensures |r| == |SubjectLabel(l, cfg)|
                   + (if l.code == CancelledCode then |CancelledPrefix| else 0)
                   + (if ShowsRoomChange(l, cfg) then |RoomChangePrefix| else 0)
    ensures r[|r| - |SubjectLabel(l, cfg)|..] == SubjectLabel(l, cfg)
    ensures l.code == CancelledCode ==> CancelledPrefix <= r
    ensures l.code == CancelledCode && ShowsRoomChange(l, cfg) ==> CancelledPrefix + RoomChangePrefix <= r
    ensures l.code == CancelledCode && !ShowsRoomChange(l, cfg) ==> r == CancelledPrefix + SubjectLabel(l, cfg)
    ensures l.code != CancelledCode && ShowsRoomChange(l, cfg) ==> RoomChangePrefix <= r
    ensures l.code != CancelledCode && !ShowsRoomChange(l, cfg) ==> r == SubjectLabel(l, cfg)
  {
    var prefix := if ShowsRoomChange(l, cfg) then RoomChangePrefix else "";
    var summary := prefix + SubjectLabel(l, cfg);
    if l.code == CancelledCode then CancelledPrefix + summary else summary
  }

  /** Reads a summary back: strips a leading "Cancelled: " and then a leading
      "Room change: ", and returns both flags and what is left. */
  function ParseSummary(summary: string): (bool, bool, string)
  {
    var cancelled := CancelledPrefix <= summary;
    var rest := if cancelled then summary[|CancelledPrefix|..] else summary;
    var roomChange := RoomChangePrefix <= rest;
    (cancelled, roomChange, if roomChange then rest[|RoomChangePrefix|..] else rest)
  }

  /** A summary gives back the cancellation, the room-change notice and the
      subject label it was built from, provided the label does not itself
      begin like one of the prefixes. */
  lemma ParseSummaryInvertsSummary(l: Lesson, cfg: Config)
    requires |l.subjects| > 0
    requires !(CancelledPrefix <= SubjectLabel(l, cfg)) && !(RoomChangePrefix <= SubjectLabel(l, cfg))
    ensures ParseSummary(Summary(l, cfg)) == (l.code == CancelledCode, ShowsRoomChange(l, cfg), SubjectLabel(l, cfg))
  {
    var subjectLabel := SubjectLabel(l, cfg);
    var inner := (if ShowsRoomChange(l, cfg) then RoomChangePrefix else "") + subjectLabel;
    if ShowsRoomChange(l, cfg) {
      assert !(CancelledPrefix <= inner) by {
        assert inner[0] == 'R';
      }
      assert inner[|RoomChangePrefix|..] == subjectLabel;
    }
    if l.code == CancelledCode {
      assert Summary(l, cfg)[|CancelledPrefix|..] == inner;
    }
  }

  /** The event location, by `calendar_room`; none when the lesson has no
      room or the mode is "None" or any other value. */
  function Location(l: Lesson, cfg: Config): (r: Option<string>)
    ensures r.Some? <==>
              |l.rooms| > 0 && cfg.calendarRoom in {RoomLongName, RoomShortName, RoomShortLongName}
    ensures r.Some? && cfg.calendarRoom == RoomLongName ==> r.value == l.rooms[0].longName
    ensures r.Some? && cfg.calendarRoom == RoomShortName ==> r.value == l.rooms[0].name
  {
    if |l.rooms| > 0 && cfg.calendarRoom != "None" then
      if cfg.calendarRoom == RoomLongName then Some(l.rooms[0].longName)
      else if cfg.calendarRoom == RoomShortName then Some(l.rooms[0].name)
      else if cfg.calendarRoom == RoomShortLongName then Some(l.rooms[0].name + " - " + l.rooms[0].longName)
      else None
    else None
  }

  /** The short-long location is the short location, " - ", and the long one. */
  lemma ShortLongLocationJoinsBoth(l: Lesson, cfg: Config)
    requires |l.rooms| > 0
    ensures Location(l, cfg.(calendarRoom := RoomShortLongName)).value
            == Location(l, cfg.(calendarRoom := RoomShortName)).value + " - "
               + Location(l, cfg.(calendarRoom := RoomLongName)).value
  {
  }

  /** The option default "long name" is none of the location modes, so with
      the default no event has a location. */
  lemma DefaultRoomModeShowsNoLocation(l: Lesson, cfg: Config)
    requires cfg.calendarRoom == "long name"
    ensures Location(l, cfg).None?
  {
  }

  /** The event description, by `calendar_description`; `jsonKeys` is the
      key set of the lesson's forced JSON as this call of `get_lesson_json`
      writes it. */
  function EventDescription(l: Lesson, cfg: Config, jsonKeys: set<Key>): (r: Option<Description>)
    ensures r.Some? <==> cfg.calendarDescription in {DescriptionJson, DescriptionLessonInfo}
    ensures cfg.calendarDescription == DescriptionJson ==> r == Some(JsonDescription(jsonKeys))
    ensures cfg.calendarDescription == DescriptionLessonInfo ==> r == Some(LessonInfo(l.substText))
  {
    if cfg.calendarDescription == DescriptionJson then Some(JsonDescription(jsonKeys))
    else if cfg.calendarDescription == DescriptionLessonInfo then Some(LessonInfo(l.substText))
    else None
  }

  /** The calendar event of one lesson that passed the filter. */
  function FormatEvent(l: Lesson, cfg: Config, jsonKeys: set<Key>): (e: CalendarEvent)
    requires |l.subjects| > 0
    ensures e.start == l.start && e.end == l.end
  {
    CalendarEvent(Summary(l, cfg), l.start, l.end, EventDescription(l, cfg, jsonKeys), Location(l, cfg))
  }

  /** The calendar events `_get_events` builds, and the exclusion list its
      calls of `get_lesson_json` leave behind. */
  datatype CalendarRun = CalendarRun(events: seq<CalendarEvent>, excludeData: seq<string>)

  /** The two lists `_get_events` fills: calendar events, and (when
      notifications are on) the snapshot records for the change detector;
      with the exclusion list the loop leaves. */
  datatype EventLists = EventLists(calendar: seq<CalendarEvent>, snapshot: seq<NotifyEvent>, excludeData: seq<string>)

  /** Some lesson the snapshot would take lacks a field its record needs. */
  ghost predicate SnapshotFails(table: seq<Lesson>, cfg: Config)
  {
    NotifyEnabled(cfg) && exists l :: l in table && CheckLesson(l, cfg, true) && NotifyRecord(l).None?
  }

  /** The snapshot records of the given lessons, in order; None when some
      lesson lacks a field its record needs (where `get_lesson_for_notify`
      raises). */
  function Snapshot(lessons: seq<Lesson>): (r: Option<seq<NotifyEvent>>)
    ensures r.None? <==> exists l :: l in lessons && NotifyRecord(l).None?
    ensures r.Some? ==> |r.value| == |lessons|
    ensures r.Some? ==> forall i :: 0 <= i < |lessons| ==> NotifyRecord(lessons[i]) == Some(r.value[i])
  {
    if |lessons| == 0 then Some([])
    else
      assert lessons == [lessons[0]] + lessons[1..];
      match NotifyRecord(lessons[0])
      case None => None
      case Some(e) =>
        match Snapshot(lessons[1..])
        case None => None
        case Some(rest) => Some([e] + rest)
  }

  /** The calendar events of the given lessons, rendered one after
      another. In "JSON" mode each description is the forced JSON of its
      lesson: a lesson refused its teachers keeps them out of every later
      description and puts "teachers" on the exclusion list. In the other
      modes `get_lesson_json` is not called and the list stays as it was. */
  function EventsOf(shown: seq<Lesson>, cfg: Config): (r: CalendarRun)
    requires forall i :: 0 <= i < |shown| ==> |shown[i].subjects| > 0
    ensures && |r.events| == |shown|
            && forall i :: 0 <= i < |shown| ==>
                 && r.events[i].start == shown[i].start && r.events[i].end == shown[i].end
                 && r.events[i].summary == Summary(shown[i], cfg)
                 && r.events[i].location == Location(shown[i], cfg)
    ensures cfg.calendarDescription == DescriptionLessonInfo ==>
              forall i :: 0 <= i < |r.events| ==> r.events[i].description == Some(LessonInfo(shown[i].substText))
    ensures cfg.calendarDescription !in {DescriptionJson, DescriptionLessonInfo} ==>
              forall i :: 0 <= i < |r.events| ==> r.events[i].description.None?
    ensures cfg.calendarDescription == DescriptionJson ==>
              forall i :: 0 <= i < |r.events| ==>
                r.events[i].description.Some? && r.events[i].description.value.JsonDescription?
    ensures cfg.calendarDescription == DescriptionJson ==>
              forall i :: 0 <= i < |r.events| ==>
                && HasCoreKeys(r.events[i].description.value.keys)
                && (Teachers in r.events[i].description.value.keys <==>
                      TeachersKey !in cfg.excludeData && shown[i].teachers.Granted? && NoRefusalBefore(shown, i))
                && SingleOutsideTeachers(r.events[i].description.value.keys, shown[i], cfg, true)
                && (OriginalTeachers in r.events[i].description.value.keys <==>
                      TeachersKey !in cfg.excludeData && shown[i].originalTeachers.Some? && NoRefusalBefore(shown, i))
    ensures r.excludeData ==
              if cfg.calendarDescription == DescriptionJson && TeachersKey !in cfg.excludeData
                 && !NoRefusalBefore(shown, |shown|)
              then cfg.excludeData + [TeachersKey] else cfg.excludeData
  {
    var rendered := RenderEach(shown, cfg, true);
    var events := FormatEach(shown, cfg, rendered.keys);
    FormattedEvents(shown, cfg, rendered.keys, events);
    CalendarRun(events, if cfg.calendarDescription == DescriptionJson then rendered.excludeData else cfg.excludeData)
  }

  /** The event of each lesson, with the JSON key set at the same position. */
  function FormatEach(shown: seq<Lesson>, cfg: Config, keys: seq<set<Key>>): (events: seq<CalendarEvent>)
    requires |keys| == |shown| && forall i :: 0 <= i < |shown| ==> |shown[i].subjects| > 0
    ensures |events| == |shown|
    ensures forall i :: 0 <= i < |shown| ==> events[i] == FormatEvent(shown[i], cfg, keys[i])
  {
    seq(|shown|, i requires 0 <= i < |shown| => FormatEvent(shown[i], cfg, keys[i]))
  }

  /** The events formatted from the rendered key sets carry the lessons'
      times, summaries and locations, and descriptions as the mode says;
      in mode JSON a description's keys are the rendered ones. */
  lemma FormattedEvents(shown: seq<Lesson>, cfg: Config, keys: seq<set<Key>>, events: seq<CalendarEvent>)
    requires |keys| == |shown| && forall i :: 0 <= i < |shown| ==> |shown[i].subjects| > 0
    requires |events| == |shown| && forall i :: 0 <= i < |shown| ==> events[i] == FormatEvent(shown[i], cfg, keys[i])
    requires forall i :: 0 <= i < |shown| ==> HasCoreKeys(keys[i]) && SubjectId !in keys[i]
    requires forall i :: 0 <= i < |shown| ==> SingleOutsideTeachers(keys[i], shown[i], cfg, true)
    requires forall i :: 0 <= i < |shown| ==>
               (Teachers in keys[i] <==>
                  TeachersKey !in cfg.excludeData && shown[i].teachers.Granted? && NoRefusalBefore(shown, i))
    requires forall i :: 0 <= i < |shown| ==>
               (OriginalTeachers in keys[i] <==>
                  TeachersKey !in cfg.excludeData && shown[i].originalTeachers.Some? && NoRefusalBefore(shown, i))
    ensures forall i :: 0 <= i < |shown| ==>
              && events[i].start == shown[i].start && events[i].end == shown[i].end
              && events[i].summary == Summary(shown[i], cfg)
              && events[i].location == Location(shown[i], cfg)
    ensures cfg.calendarDescription == DescriptionLessonInfo ==>
              forall i :: 0 <= i < |events| ==> events[i].description == Some(LessonInfo(shown[i].substText))
    ensures cfg.calendarDescription !in {DescriptionJson, DescriptionLessonInfo} ==>
              forall i :: 0 <= i < |events| ==> events[i].description.None?
    ensures cfg.calendarDescription == DescriptionJson ==>
              forall i :: 0 <= i < |events| ==> events[i].description == Some(JsonDescription(keys[i]))
  {
  }

  /** The calendar events of the lessons that pass the filter, with
      `calendar_show_cancelled_lessons` deciding about cancellations. */
  function CalendarEvents(table: seq<Lesson>, cfg: Config): (r: CalendarRun)
    ensures var shown := PassingLessons(table, cfg, cfg.calendarShowCancelled);
            && |r.events| == |shown|
            && forall i :: 0 <= i < |shown| ==>
                 && r.events[i].start == shown[i].start && r.events[i].end == shown[i].end
                 && r.events[i].summary == Summary(shown[i], cfg)
                 && r.events[i].location == Location(shown[i], cfg)
    ensures var shown := PassingLessons(table, cfg, cfg.calendarShowCancelled);
            cfg.calendarDescription == DescriptionLessonInfo ==>
              forall i :: 0 <= i < |r.events| ==> r.events[i].description == Some(LessonInfo(shown[i].substText))
    ensures cfg.calendarDescription !in {DescriptionJson, DescriptionLessonInfo} ==>
              forall i :: 0 <= i < |r.events| ==> r.events[i].description.None?
    ensures var shown := PassingLessons(table, cfg, cfg.calendarShowCancelled);
            cfg.calendarDescription == DescriptionJson ==>
              forall i :: 0 <= i < |r.events| ==>
                r.events[i].description.Some? && r.events[i].description.value.JsonDescription?
    ensures var shown := PassingLessons(table, cfg, cfg.calendarShowCancelled);
            cfg.calendarDescription == DescriptionJson ==>
              forall i :: 0 <= i < |r.events| ==>
                && HasCoreKeys(r.events[i].description.value.keys)
                && (Teachers in r.events[i].description.value.keys <==>
                      TeachersKey !in cfg.excludeData && shown[i].teachers.Granted? && NoRefusalBefore(shown, i))
                && SingleOutsideTeachers(r.events[i].description.value.keys, shown[i], cfg, true)
                && (OriginalTeachers in r.events[i].description.value.keys <==>
                      TeachersKey !in cfg.excludeData && shown[i].originalTeachers.Some? && NoRefusalBefore(shown, i))
    ensures var shown := PassingLessons(table, cfg, cfg.calendarShowCancelled);
            r.excludeData ==
              if cfg.calendarDescription == DescriptionJson && TeachersKey !in cfg.excludeData
                 && !NoRefusalBefore(shown, |shown|)
              then cfg.excludeData + [TeachersKey] else cfg.excludeData
  {
    EventsOf(PassingLessons(table, cfg, cfg.calendarShowCancelled), cfg)
  }

  /** `_get_events` before compaction: a calendar event for each lesson that
      passes the filter, in table order, and, when notifications are on, a
      snapshot record for each lesson that passes it with cancelled lessons
      allowed. The two lists are filled in one pass over the table but
      neither depends on the other. None when building a snapshot record
      raises. */
  function GetEvents(table: seq<Lesson>, cfg: Config): (r: Option<EventLists>)
    ensures r.None? <==> SnapshotFails(table, cfg)
    ensures r.Some? ==> r.value.calendar == CalendarEvents(table, cfg).events
    ensures r.Some? ==> r.value.excludeData == CalendarEvents(table, cfg).excludeData
    ensures r.Some? && !NotifyEnabled(cfg) ==> r.value.snapshot == []
    ensures r.Some? && NotifyEnabled(cfg) ==>
              var taken := PassingLessons(table, cfg, true);
              && |r.value.snapshot| == |taken|
              && forall i :: 0 <= i < |taken| ==> NotifyRecord(taken[i]) == Some(r.value.snapshot[i])
  {
    var run := CalendarEvents(table, cfg);
    if !NotifyEnabled(cfg) then Some(EventLists(run.events, [], run.excludeData))
    else
      match Snapshot(PassingLessons(table, cfg, true))
      case None => None
      case Some(records) => Some(EventLists(run.events, records, run.excludeData))
  }

  /** Whether `_get_events_in_timerange` keeps a lesson: it passes the filter
      (cancellations decided by `show_cancelled`) when filtering is on, and is
      not cancelled unless cancelled lessons are shown. */
  predicate InTimeRangeResult(l: Lesson, cfg: Config, filterOn: bool, showCancelled: bool)
  {
    (!filterOn || CheckLesson(l, cfg, showCancelled)) && (showCancelled || l.code != CancelledCode)
  }

  /** `InTimeRangeResult` as a test to filter with. */
  function InTimeRange(cfg: Config, filterOn: bool, showCancelled: bool): Lesson -> bool
  {
    l => InTimeRangeResult(l, cfg, filterOn, showCancelled)
  }

  /** The lessons `_get_events_in_timerange` keeps, in table order. */
  function SelectInTimeRange(table: seq<Lesson>, cfg: Config, filterOn: bool, showCancelled: bool): (r: seq<Lesson>)
    ensures forall l :: l in r <==> l in table && InTimeRangeResult(l, cfg, filterOn, showCancelled)
    ensures forall l :: multiset(r)[l] ==
                        if InTimeRangeResult(l, cfg, filterOn, showCancelled) then multiset(table)[l] else 0
    ensures PicksAt(r, table, FilterPositions(table, InTimeRange(cfg, filterOn, showCancelled)))
  {
    Filter(table, InTimeRange(cfg, filterOn, showCancelled))
  }

  /** One dictionary of the time-range result: its lesson and its key set. */
  datatype TimedJson = TimedJson(lesson: Lesson, keys: set<Key>)

  function TimedStart(e: TimedJson): int { e.lesson.start }

  /** The dictionaries of the kept lessons in table order, each the forced
      JSON of its lesson, rendered one after another. */
  function RenderInTimeRange(table: seq<Lesson>, cfg: Config, filterOn: bool, showCancelled: bool): (r: Rendered)
    ensures var kept := SelectInTimeRange(table, cfg, filterOn, showCancelled);
            && |r.keys| == |kept|
            && (forall i :: 0 <= i < |kept| ==> HasCoreKeys(r.keys[i]) && SubjectId !in r.keys[i])
            && (forall i :: 0 <= i < |kept| ==>
                  (Teachers in r.keys[i] <==>
                     TeachersKey !in cfg.excludeData && kept[i].teachers.Granted? && NoRefusalBefore(kept, i)))
            && (forall i :: 0 <= i < |kept| ==> SingleOutsideTeachers(r.keys[i], kept[i], cfg, true))
            && (forall i :: 0 <= i < |kept| ==>
                  (OriginalTeachers in r.keys[i] <==>
                     TeachersKey !in cfg.excludeData && kept[i].originalTeachers.Some? && NoRefusalBefore(kept, i)))
            && r.excludeData == if TeachersKey !in cfg.excludeData && !NoRefusalBefore(kept, |kept|)
                                then cfg.excludeData + [TeachersKey] else cfg.excludeData
  {
    RenderEach(SelectInTimeRange(table, cfg, filterOn, showCancelled), cfg, true)
  }

  /** Each lesson paired with its key set. */
  function Pair(ls: seq<Lesson>, keys: seq<set<Key>>): (r: seq<TimedJson>)
    requires |keys| == |ls|
    ensures |r| == |ls|
    ensures forall i :: 0 <= i < |r| ==> r[i].lesson == ls[i] && r[i].keys == keys[i]
    ensures forall e :: e in r ==> e.lesson in ls
  {
    seq(|ls|, i requires 0 <= i < |ls| => TimedJson(ls[i], keys[i]))
  }

  /** The kept lessons paired with their dictionaries, in table order. */
  function TimedInTableOrder(table: seq<Lesson>, cfg: Config, filterOn: bool, showCancelled: bool): (r: seq<TimedJson>)
    ensures var kept := SelectInTimeRange(table, cfg, filterOn, showCancelled);
            && |r| == |kept|
            && forall i :: 0 <= i < |r| ==>
                 r[i].lesson == kept[i] && r[i].keys == RenderInTimeRange(table, cfg, filterOn, showCancelled).keys[i]
    ensures forall e :: e in r ==> e.lesson in SelectInTimeRange(table, cfg, filterOn, showCancelled)
  {
    Pair(SelectInTimeRange(table, cfg, filterOn, showCancelled), RenderInTimeRange(table, cfg, filterOn, showCancelled).keys)
  }

  /** The time-range result and the exclusion list it leaves. */
  datatype TimeRangeRun = TimeRangeRun(events: seq<TimedJson>, excludeData: seq<string>)

  /** `_get_events_in_timerange` before compaction: the dictionaries of the
      kept lessons sorted by start time; Python's sort is stable, so lessons
      with equal starts stay in table order. */
  function EventsInTimeRange(table: seq<Lesson>, cfg: Config, filterOn: bool, showCancelled: bool): (r: TimeRangeRun)
    ensures forall e :: e in r.events ==> e.lesson in table && InTimeRangeResult(e.lesson, cfg, filterOn, showCancelled)
    ensures multiset(r.events) == multiset(TimedInTableOrder(table, cfg, filterOn, showCancelled))
    ensures SortedBy(r.events, TimedStart)
    ensures forall t :: KeyRun(r.events, TimedStart, t) == KeyRun(TimedInTableOrder(table, cfg, filterOn, showCancelled), TimedStart, t)
    ensures r.excludeData == RenderInTimeRange(table, cfg, filterOn, showCancelled).excludeData
    ensures forall e :: e in r.events ==>
              && HasCoreKeys(e.keys) && SubjectId !in e.keys
              && SingleOutsideTeachers(e.keys, e.lesson, cfg, true)
              && (Teachers in e.keys ==> TeachersKey !in cfg.excludeData && e.lesson.teachers.Granted?)
              && (OriginalTeachers in e.keys ==> TeachersKey !in cfg.excludeData && e.lesson.originalTeachers.Some?)
    ensures var kept := SelectInTimeRange(table, cfg, filterOn, showCancelled);
            NoRefusalBefore(kept, |kept|) ==> forall e :: e in r.events ==> e.keys == JsonKeys(e.lesson, cfg, true).value
  {
    var paired := TimedInTableOrder(table, cfg, filterOn, showCancelled);
    var sorted := SortBy(paired, TimedStart);
    SortByMembers(paired, TimedStart);
    TimedMembers(table, cfg, filterOn, showCancelled, sorted);
    TimedKeys(table, cfg, filterOn, showCancelled, sorted);
    TimeRangeRun(sorted, RenderInTimeRange(table, cfg, filterOn, showCancelled).excludeData)
  }

  /** Whatever is drawn from the paired dictionaries belongs to a kept
      lesson of the table. */
  lemma TimedMembers(table: seq<Lesson>, cfg: Config, filterOn: bool, showCancelled: bool, es: seq<TimedJson>)
    requires forall e :: e in es ==> e in TimedInTableOrder(table, cfg, filterOn, showCancelled)
    ensures forall e :: e in es ==> e.lesson in table && InTimeRangeResult(e.lesson, cfg, filterOn, showCancelled)
  {
    forall e | e in es
      ensures e.lesson in table && InTimeRangeResult(e.lesson, cfg, filterOn, showCancelled)
    {
      assert e.lesson in SelectInTimeRange(table, cfg, filterOn, showCancelled);
    }
  }

  /** Whatever is drawn from the paired dictionaries has the keys a single
      forced call writes for its lesson, except that the teacher keys may be
      missing; they are missing only after a refusal. */
  lemma TimedKeys(table: seq<Lesson>, cfg: Config, filterOn: bool, showCancelled: bool, es: seq<TimedJson>)
    requires forall e :: e in es ==> e in TimedInTableOrder(table, cfg, filterOn, showCancelled)
    ensures forall e :: e in es ==>
              && HasCoreKeys(e.keys) && SubjectId !in e.keys
              && SingleOutsideTeachers(e.keys, e.lesson, cfg, true)
              && (Teachers in e.keys ==> TeachersKey !in cfg.excludeData && e.lesson.teachers.Granted?)
              && (OriginalTeachers in e.keys ==> TeachersKey !in cfg.excludeData && e.lesson.originalTeachers.Some?)
    ensures var kept := SelectInTimeRange(table, cfg, filterOn, showCancelled);
            NoRefusalBefore(kept, |kept|) ==> forall e :: e in es ==> e.keys == JsonKeys(e.lesson, cfg, true).value
  {
    var kept := SelectInTimeRange(table, cfg, filterOn, showCancelled);
    var paired := TimedInTableOrder(table, cfg, filterOn, showCancelled);
    forall e | e in es
      ensures && HasCoreKeys(e.keys) && SubjectId !in e.keys
              && SingleOutsideTeachers(e.keys, e.lesson, cfg, true)
              && (Teachers in e.keys ==> TeachersKey !in cfg.excludeData && e.lesson.teachers.Granted?)
              && (OriginalTeachers in e.keys ==> TeachersKey !in cfg.excludeData && e.lesson.originalTeachers.Some?)
      ensures NoRefusalBefore(kept, |kept|) ==> e.keys == JsonKeys(e.lesson, cfg, true).value
    {
      var i :| 0 <= i < |paired| && paired[i] == e;
      KeysAt(kept, RenderInTimeRange(table, cfg, filterOn, showCancelled).keys, cfg, i, e);
    }
  }

  /** The `i`-th key set of a forced loop over `kept`, read for one lesson. */
  lemma KeysAt(kept: seq<Lesson>, keys: seq<set<Key>>, cfg: Config, i: int, e: TimedJson)
    requires 0 <= i < |kept| == |keys| && e.lesson == kept[i] && e.keys == keys[i]
    requires HasCoreKeys(keys[i]) && SubjectId !in keys[i]
    requires SingleOutsideTeachers(keys[i], kept[i], cfg, true)
    requires Teachers in keys[i] <==>
               TeachersKey !in cfg.excludeData && kept[i].teachers.Granted? && NoRefusalBefore(kept, i)
    requires OriginalTeachers in keys[i] <==>
               TeachersKey !in cfg.excludeData && kept[i].originalTeachers.Some? && NoRefusalBefore(kept, i)
    ensures && HasCoreKeys(e.keys) && SubjectId !in e.keys
            && SingleOutsideTeachers(e.keys, e.lesson, cfg, true)
            && (Teachers in e.keys ==> TeachersKey !in cfg.excludeData && e.lesson.teachers.Granted?)
            && (OriginalTeachers in e.keys ==> TeachersKey !in cfg.excludeData && e.lesson.originalTeachers.Some?)
    ensures NoRefusalBefore(kept, |kept|) ==> e.keys == JsonKeys(e.lesson, cfg, true).value
  {
    if NoRefusalBefore(kept, |kept|) {
      assert NoRefusalBefore(kept, i);
      var single := JsonKeys(e.lesson, cfg, true).value;
      forall k ensures k in e.keys <==> k in single {
        if k == Teachers || k == OriginalTeachers {
        } else {
          assert k in keys[i] <==> k in single;
        }
      }
    }
  }

  /** With `show_cancelled` off, no cancelled lesson is in the time-range
      result, whether or not filtering is on. */
  lemma TimeRangeHidesCancelled(table: seq<Lesson>, cfg: Config, filterOn: bool)
    ensures forall e :: e in EventsInTimeRange(table, cfg, filterOn, false).events ==> e.lesson.code != CancelledCode
  {
  }
}
