/** The data the lesson logic works on: one lesson record as the timetable
    backend returns it, the integration's options, and integer time. */
module Lessons {
  import opened Wrappers

  /** A room, class or teacher as the backend names it. */
  datatype Named = Named(name: string, longName: string)

  /** A subject of a lesson; the first subject of a lesson is its primary one. */
  datatype Subject = Subject(name: string, longName: string, id: int)

  /** Reading a field the backend may refuse: teachers are `NoRight` when the
      account has no right for `getTeachers()`, `Unavailable` on any other
      failure. */
  datatype Access<T> = Granted(value: T) | NoRight | Unavailable

  /** One lesson occurrence. Times are minutes on a common local clock.
      Fields the integration reads inside a try block are optional. */
  datatype Lesson = Lesson(
    start: int,
    end: int,
    id: Option<int>,
    lsNumber: Option<int>,
    code: string,
    lessonType: Option<string>,
    subjects: seq<Subject>,
    rooms: seq<Named>,
    originalRooms: seq<Named>,
    klassen: Option<seq<Named>>,
    teachers: Access<seq<Named>>,
    originalTeachers: Option<seq<Named>>,
    lsText: string,     // `lstext`
    substText: string   // `substText`
  )

  /** The options the integration reads when it is set up. */
  datatype Config = Config(
    calendarLongName: bool,
    calendarShowCancelled: bool,
    keepLoggedIn: bool,
    filterMode: string,
    filterSubjects: seq<string>,
    generateJson: bool,
    excludeData: seq<string>,
    filterDescription: seq<string>,
    extendedTimetable: bool,
    calendarDescription: string,
    calendarRoom: string,
    calendarShowRoomChange: bool,
    notifyEntityId: string,
    notifyOptions: seq<string>,
    notifyData: map<string, string>
  )

  /** Notifications are on when both a target entity and at least one
      notification option are configured. */
  predicate NotifyEnabled(cfg: Config)
  {
    |cfg.notifyEntityId| > 0 && |cfg.notifyOptions| > 0
  }

  /** The lesson code of a cancelled lesson. */
  const CancelledCode: string := "cancelled"

  /** Filter modes; any other value imposes no subject restriction. */
  const ModeNone: string := "None"
  const ModeBlacklist: string := "Blacklist"
  const ModeWhitelist: string := "Whitelist"

  const MinutesPerDay: nat := 1440

  /** The calendar day of a time (days since the clock's epoch). */
  function Day(t: int): int
  {
    t / MinutesPerDay
  }

  /** Midnight at the start of the day after the one `t` falls in. */
  function NextMidnight(t: int): (m: int)
    ensures t < m <= t + MinutesPerDay
    ensures m % MinutesPerDay == 0
    ensures Day(m) == Day(t) + 1
  {
    (Day(t) + 1) * MinutesPerDay
  }

  function StartOf(l: Lesson): int { l.start }
}
