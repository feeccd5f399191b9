# WebUntis lesson logic in Dafny

This project models the lesson logic of the `WebUntis` class of the Home
Assistant WebUntis integration (`custom_components/webuntis/__init__.py`).
That class polls a school-timetable server and derives several sensor values
from the returned lessons:

- whether a class is in progress;
- the next class;
- the next lesson to wake up for;
- today's first start and last end;
- a per-subject lesson count;
- calendar events;
- the JSON views of a lesson.

It also keeps a snapshot of upcoming lessons, so that a change detector can
report timetable changes as notifications. It holds a login session shared
by overlapping update cycles through a reference counter (`updating`).

Modelling choices:

- **Time.** Times are integer minutes, and a lesson's day is `t / 1440`.
- **Fetched timetables.** Every timetable the server would return is an
  input sequence of `Lesson` values.
- **Optional attributes.** `id`, `type`, `lsnumber`, `klassen` and
  `original_teachers` are `Option` values. These are the attributes the code
  is written to do without. `get_lesson_json` reads them only inside `try`
  blocks that skip the key (lines 750-830). `get_lesson_for_notify` fails
  without `id` or `lsnumber` (lines 842-843), and the model keeps that
  failure.
- **Required attributes.** `code`, `subjects`, `lstext`, `substText`,
  `rooms` and `original_rooms` are always present. On the paths that read
  them, `check_lesson` and `_get_events` do so outside any handler that would
  absorb their absence (lines 598-626 and 714-736). So the `except` branches
  that guard them in `get_lesson_json` and `get_lesson_for_notify` are never
  taken in the model.
- **Teachers.** Teacher information is granted, refused (the "no right for
  getTeachers()" error), or unavailable.
- **Remote calls.** The session's remote calls are represented by their
  outcomes, which are parameters.
- **Helpers defined elsewhere.** `compare_list`, `compact_list`,
  `get_notification` and `get_notify_blacklist` are defined in `notify.py`
  and `utils.py`, which are not part of this model. They appear as function
  parameters.

Python semantics are written out where they matter:

- the `in` substring test (an empty fragment occurs in every text);
- `str.split`;
- the stability of `sorted`, including with `reverse=True`;
- the insertion order of a `dict`.

The modules:

| file | module | what it holds |
|---|---|---|
| `wrappers.dfy` | `Wrappers` | `Option` |
| `seqs.dfy` | `Seqs` | substring test, split and join, a stable insertion sort with its sortedness, permutation and stability lemmas, first position |
| `lessons.dfy` | `Lessons` | the lesson and configuration records, constants, day arithmetic |
| `lesson_filter.dfy` | `LessonFilter` | `check_lesson` and its declarative reading |
| `projection.dfy` | `Projection` | key sets of `get_lesson_json` and `get_lesson_for_notify`, the teacher exclusion |
| `derived.dfy` | `Derived` | `_is_class`, `_next_class`, `_next_lesson_to_wake_up`, `_today`, `_next_day_json` |
| `lesson_count.dfy` | `LessonCount` | `_count_lessons` |
| `calendar.dfy` | `Calendar` | `_get_events` and `_get_events_in_timerange` |
| `session.dfy` | `Session` | `webuntis_login`, `webuntis_logout`, the cycle of `_async_status_request` |
| `notify.dfy` | `Notify` | `update_notify`, the service name split of `async_notify` |
| `options.dfy` | `Options` | `async_migrate_entry`, reading the options, the school-year clamp of `get_timetable` |

Three behaviours of the code are worth stating plainly:

- **Filter subjects.** The blacklist and whitelist test every subject of a
  lesson, not only the first (`LessonFilter.EverySubjectIsChecked`).
- **Class in progress.** A class is in progress only strictly between its
  start and its end (`Derived.IsClass`).
- **Wake-up.** If any lesson that passes the filter has already started
  today, every later lesson of today is skipped as well. The wake-up is then
  the first lesson from the next midnight on. So at 10:00, with lessons at
  08:00 and 13:00 today and 09:00 tomorrow, the wake-up is 09:00 tomorrow,
  not 13:00 today (`Derived.WakeSkipsRestOfDay`, `Derived.WakeAtTenExample`).

## Model

| member | source | states |
|---|---|---|
| LessonFilter.CheckLesson | custom_components/webuntis/__init__.py:712-736 | a passing lesson has a subject, and is not cancelled unless cancellations are ignored |
| LessonFilter.CheckLessonMatchesRules | custom_components/webuntis/__init__.py:712-736 | the ordered, short-circuit filter passes a lesson exactly when it meets every rule of the declarative reading: not cancelled (unless ignored), has a subject, no description fragment occurs in `lstext` or `substText`, no subject blacklisted, and some subject whitelisted when the whitelist is non-empty |
| LessonFilter.AnyFragmentIn | custom_components/webuntis/__init__.py:720-725 | true exactly when some configured fragment is a substring of the lesson's `lstext` or its `substText` |
| LessonFilter.AnySubjectListed | custom_components/webuntis/__init__.py:727-734 | true exactly when some subject of the lesson, not only the first, has its short name in the list |
| LessonFilter.PassingLessons | custom_components/webuntis/__init__.py:533-536 | exactly the lessons of the timetable that pass the filter, each as often as it occurs there, read off the table at ascending positions, so in table order |
| LessonFilter.PassingPositions | custom_components/webuntis/__init__.py:533-536 | the positions read by the filter are ascending, and a position is among them exactly when its lesson passes |
| LessonFilter.IgnoringCancelledAdmitsMore | custom_components/webuntis/__init__.py:714-715 | ignoring cancellations never rejects a lesson the strict filter admits, and changes nothing for lessons that are not cancelled |
| LessonFilter.NoSubjectRestriction | custom_components/webuntis/__init__.py:727-736 | mode "None", any unknown mode, or an empty whitelist, with no description fragments, passes exactly the lessons with a subject that are not excluded as cancelled |
| LessonFilter.EverySubjectIsChecked | custom_components/webuntis/__init__.py:727-734 | a blacklisted second subject rejects the lesson; a whitelisted second subject admits it |
| LessonFilter.EmptyFragmentRejectsAll | custom_components/webuntis/__init__.py:720-725 | an empty description fragment occurs in every text, so it rejects every lesson |
| Projection.JsonKeys | custom_components/webuntis/__init__.py:739-832 | without `generate_json` and `force` the disabled message; otherwise start, end, code, subjects, rooms and original rooms always and the subject id never; id, type and classes exactly when the lesson has them; the two texts exactly with the extended timetable, the lesson number when it also exists; teachers exactly when "teachers" is not excluded and they are granted, original teachers when not excluded and present |
| Projection.ExclusionOnlyTouchesTeachers | custom_components/webuntis/__init__.py:806-832 | the exclusion list affects no key of the JSON except the two teacher keys |
| Projection.ExcludeAfterJson | custom_components/webuntis/__init__.py:806-822 | the exclusion list only grows, and when it changes it becomes the old list plus "teachers"; it changes exactly when JSON is produced, teachers are not yet excluded and reading them is refused |
| Projection.TeachersStayExcluded | custom_components/webuntis/__init__.py:879-886 | after one refused teacher read, no later JSON of any lesson holds a teacher key and the exclusion list stops growing |
| Projection.ExcludeAfterEach | custom_components/webuntis/__init__.py:806-822 | after JSON has been produced for each lesson in turn, the exclusion list has grown, by exactly "teachers", exactly when JSON is produced, "teachers" was not excluded yet and some lesson was refused its teachers |
| Projection.JsonKeysEach | custom_components/webuntis/__init__.py:806-822 | one call per lesson with the list the earlier calls left: every key other than the teacher keys is as for a single call, and a lesson has the teacher key exactly when it is granted, "teachers" was not excluded, and no earlier lesson was refused |
| Projection.RenderEach | custom_components/webuntis/__init__.py:806-832 | with JSON on: one key set per lesson, each with the always-present keys and without the subject id; every key but the two teacher keys exactly as a single call writes it; `teachers` and `original_teachers` exactly as a single call would write them, up to the first lesson refused its teachers and never after; and "teachers" appended once exactly when some lesson was refused and it was not excluded yet |
| Projection.EachWithoutRefusal | custom_components/webuntis/__init__.py:806-822 | when no lesson is refused its teachers, every call writes what a single call writes and the list is unchanged |
| Projection.NotifyRecord | custom_components/webuntis/__init__.py:834-877 | a record exists exactly when the primary subject, the id and the lesson number are present; it carries the lesson's start, end, code, subjects, primary subject id, id, lesson number, type, rooms and original rooms |
| Projection.NotifyKeys | custom_components/webuntis/__init__.py:836-877 | the record always has start, end, code, subjects, subject id, id, lesson number, rooms and original rooms, has a type exactly when the lesson has one, and never has texts, classes or teachers |
| Projection.NotifyKeysWithinJson | custom_components/webuntis/__init__.py:739-877 | every key of the notification record, except the subject id and the lesson number, is also in the lesson's forced JSON; with the extended timetable only the subject id is extra |
| Derived.IsClass | custom_components/webuntis/__init__.py:478-490 | true exactly when some lesson that passes the filter has started strictly before now and ends strictly after now |
| Derived.Upcoming | custom_components/webuntis/__init__.py:503-505 | exactly the lessons that pass the filter and start strictly after now, each as often as in the table, in table order |
| Derived.NextClass | custom_components/webuntis/__init__.py:492-522 | None exactly when no lesson that passes the filter starts after now; otherwise such a lesson whose start is the least among them |
| Derived.NextClassJson | custom_components/webuntis/__init__.py:519-520 | exists exactly when there is a next class; its keys are absent exactly without `generate_json`, otherwise they are the keys of one `get_lesson_json` call on the next class (the always-present keys, the teacher key exactly when teachers are granted and not excluded); "teachers" is appended to the list exactly when JSON is on, not yet excluded, and the next class is refused its teachers |
| Derived.NextClassIsFirstOfTies | custom_components/webuntis/__init__.py:502-512 | the next class is the first lesson of the timetable, in table order, that passes the filter, starts after now and starts at the least such start, because the sort is stable |
| Derived.StartTimes | custom_components/webuntis/__init__.py:533-536 | one start time per lesson, and a time is among them exactly when some lesson starts then |
| Derived.EndTimes | custom_components/webuntis/__init__.py:699-702 | one end time per lesson, and a time is among them exactly when some lesson ends then |
| Lessons.NextMidnight | custom_components/webuntis/__init__.py:542-544 | the next midnight lies after the time and at most one day later, on a day boundary, and is the start of the following calendar day |
| Derived.WakeScan | custom_components/webuntis/__init__.py:540-547 | every kept time is one of the scanned times and lies at or after the current day mark or the next midnight; no more times are kept than scanned |
| Derived.WakeScanSorted | custom_components/webuntis/__init__.py:538-547 | over sorted times, the scan keeps the times from now on when none lies before now, and otherwise only the times from the next midnight on |
| Derived.WakeScanFromMidnight | custom_components/webuntis/__init__.py:540-547 | once the day has moved to the next midnight, exactly the times from that midnight on are kept |
| Derived.WakeFromTimes | custom_components/webuntis/__init__.py:538-558 | None exactly when no time reaches the threshold (now, or the next midnight when some time lies before now); otherwise the least time at or after the threshold |
| Derived.NextWakeUp | custom_components/webuntis/__init__.py:524-558 | over the lessons that pass the filter: the earliest start at or after now, or at or after the next midnight when one of them has already started; None exactly when no such start reaches that threshold |
| Derived.WakeOverLessons | custom_components/webuntis/__init__.py:533-558 | the wake-up time computed over the collected start times, read back as the same statement about the lessons the times come from |
| Derived.WakeSkipsRestOfDay | custom_components/webuntis/__init__.py:538-550 | with one lesson before now, one later today and one on a following day, the wake-up is the one on the following day |
| Derived.WakeAtTenExample | custom_components/webuntis/__init__.py:538-550 | at 10:00 with lessons at 08:00 and 13:00 today and 09:00 tomorrow, the wake-up is 09:00 tomorrow |
| Derived.Today | custom_components/webuntis/__init__.py:688-710 | the earliest start and the latest end over the lessons that pass the filter, each attained by such a lesson; both None exactly when no lesson passes |
| Derived.EarliestStart | custom_components/webuntis/__init__.py:694-706 | the first of the sorted start times is the start of one of the lessons and no lesson starts before it |
| Derived.LatestEnd | custom_components/webuntis/__init__.py:699-707 | the last of the sorted end times is the end of one of the lessons and no lesson ends after it |
| Derived.NextDayJson | custom_components/webuntis/__init__.py:560-576 | None without a wake-up time, the disabled message without `generate_json`, otherwise one key set per lesson of the wake-up day that passes the filter, in table order: each with the always-present keys and without the subject id, every other non-teacher key exactly as a single `get_lesson_json` call writes it, and `teachers` and `original_teachers` exactly where granted or present, not excluded, and no earlier lesson of the day was refused; "teachers" appended to the list once exactly when some lesson was refused and it was not excluded yet |
| LessonCount.CountedNames | custom_components/webuntis/__init__.py:669-675 | one name per counted lesson, in table order: the long name of its primary subject |
| LessonCount.CountedLessons | custom_components/webuntis/__init__.py:669-673 | exactly the lessons with a subject that the counting test admits, each as often as in the table, in table order |
| LessonCount.Tally | custom_components/webuntis/__init__.py:669-680 | the dictionary after the counting loop: one entry per distinct name, holding the number of its occurrences, in order of first occurrence |
| LessonCount.TallyStep | custom_components/webuntis/__init__.py:677-680 | incrementing an existing entry or appending a new one keeps the histogram exact for the longer name list |
| LessonCount.Bump | custom_components/webuntis/__init__.py:677-680 | a name not yet in the dictionary is appended with count 1; a name already in it has its count incremented in place, and nothing else changes |
| LessonCount.CountLessons | custom_components/webuntis/__init__.py:664-686 | every counted subject has exactly one entry holding its exact count; entries are ordered by count, most frequent first, and equal counts keep first-occurrence order |
| LessonCount.SortedTally | custom_components/webuntis/__init__.py:682-684 | sorting the histogram by descending count keeps it exact and distinct, and orders ties by first occurrence |
| Seqs.SortBy | custom_components/webuntis/__init__.py:657 | a stable sort: a permutation of its input, sorted by the key, with the elements of each key value in their original order |
| Seqs.SortByTiesByRank | custom_components/webuntis/__init__.py:682-684 | a stable sort of a sequence ordered by a rank orders equal keys by that rank |
| Seqs.IsSubstringAt | custom_components/webuntis/__init__.py:722-723 | the recursive substring test holds exactly when the fragment occurs at some position |
| Calendar.Summary | custom_components/webuntis/__init__.py:597-607 | the summary ends with the long or short subject name; a cancelled lesson's begins with "Cancelled: ", followed by "Room change: " when a room change is shown and by the name alone otherwise; an uncancelled lesson's begins with "Room change: " when one is shown, and is exactly the name when neither applies |
| Calendar.ParseSummaryInvertsSummary | custom_components/webuntis/__init__.py:597-607 | reading a summary back gives the cancellation, the room-change notice and the subject name it was built from |
| Calendar.Location | custom_components/webuntis/__init__.py:617-629 | a location exists exactly when the lesson has a room and the room mode is one of the three room modes; it is the first room's long or short name |
| Calendar.ShortLongLocationJoinsBoth | custom_components/webuntis/__init__.py:623-626 | the short-long location is the short location, " - " and the long location |
| Calendar.DefaultRoomModeShowsNoLocation | custom_components/webuntis/__init__.py:618-626 | the default room mode "long name" matches none of the room modes, so no event has a location |
| Calendar.EventDescription | custom_components/webuntis/__init__.py:611-614 | a description exists exactly for the modes "JSON" and "Lesson Info": in mode JSON it is the lesson's forced JSON, in mode "Lesson Info" the lesson's `substText` |
| Calendar.FormatEvent | custom_components/webuntis/__init__.py:595-626 | the event spans the lesson's start and end |
| Calendar.Snapshot | custom_components/webuntis/__init__.py:588-589 | None exactly when some lesson lacks a field of its notification record; otherwise the records of the lessons, in order |
| Calendar.CalendarEvents | custom_components/webuntis/__init__.py:591-631 | one event per lesson that passes the filter with the calendar's cancellation option, in table order, with that lesson's start, end, summary and location; the description is its `substText` in mode "Lesson Info", none in other modes, and in mode JSON the forced JSON key set: every non-teacher key as a single call writes it, and `teachers` and `original_teachers` exactly up to the first refused lesson; only mode JSON can append "teachers" to the list, once, when some shown lesson was refused |
| Calendar.GetEvents | custom_components/webuntis/__init__.py:578-640 | the calendar events and exclusion list of the passing lessons; with notifications on, the snapshot holds the records of the lessons that pass with cancellations allowed, in order, and building fails exactly when one of those lacks a field; with notifications off the snapshot is empty |
| Calendar.SelectInTimeRange | custom_components/webuntis/__init__.py:649-655 | exactly the lessons that pass the filter when filtering is on and that are not cancelled unless cancelled lessons are shown, each as often as in the table, in table order |
| Calendar.RenderInTimeRange | custom_components/webuntis/__init__.py:649-655 | one forced JSON key set per kept lesson, in table order: the always-present keys, every other non-teacher key as a single call writes it, `teachers` and `original_teachers` exactly up to the first refused lesson, and "teachers" appended once exactly when some kept lesson was refused |
| Calendar.TimedInTableOrder | custom_components/webuntis/__init__.py:649-655 | each kept lesson paired with its key set, in table order |
| Calendar.EventsInTimeRange | custom_components/webuntis/__init__.py:642-662 | the kept lessons with their key sets, as a permutation of their table order sorted by start time, lessons of equal start in table order; each key set has the always-present keys, every non-teacher key as a single forced call writes it, teacher keys only where granted or present and not excluded, and is exactly that single call's key set when no kept lesson is refused; the exclusion list is the one rendering them in table order leaves |
| Calendar.TimeRangeHidesCancelled | custom_components/webuntis/__init__.py:650-652 | without shown cancellations no cancelled lesson is in the result, whether or not filtering is on |
| Session.Login | custom_components/webuntis/__init__.py:364-432 | a successful login increments `updating` by one and sets `_loged_in`; it succeeds exactly when a held session is confirmed or a new login succeeds; every other outcome leaves `updating` unchanged; an uncaught probe error changes nothing; a refused login records the failure, resets the derived values exactly on an `OSError`, and raises the repair issue exactly for "bad credentials" |
| Session.Logout | custom_components/webuntis/__init__.py:434-439 | `updating` always drops by one; the session is released, and `_loged_in` cleared, exactly when it is not kept and the count reaches zero |
| Session.StatusRequest | custom_components/webuntis/__init__.py:211-362 | the cycle as written: `updating` comes back to its value unless an uncaught exception follows a successful login, in which case it stays one higher with the session held and not released; an invalid school year records the failure |
| Session.StatusRequestPaired | custom_components/webuntis/__init__.py:211-362 | the cycle with its logout in a `finally` clause: `updating` always comes back, and the session is released exactly when a login succeeded, the session is not kept and no other cycle held it |
| Session.PairedAgreesWhenNothingEscapes | custom_components/webuntis/__init__.py:211-362 | the two cycles agree whenever no uncaught exception follows a successful login |
| Session.CyclesBalanceWithoutEscapes | custom_components/webuntis/__init__.py:214-217 | as written, any run of cycles without an uncaught exception after login leaves `updating` where it was |
| Session.PairedCyclesBalance | custom_components/webuntis/__init__.py:214-217 | with the paired cycle, any run of cycles leaves `updating` where it was |
| Session.PairedCyclesRelease | custom_components/webuntis/__init__.py:434-439 | with the paired cycle and the session not kept, a run that starts released ends released |
| Session.LeakedCounterStays | custom_components/webuntis/__init__.py:362 | as written, no run of cycles lowers `updating`, so a leaked count never returns to zero |
| Session.EscapeSkipsLogout | custom_components/webuntis/__init__.py:247-362 | as written, an escape in the first cycle leaves the session held and unreleased through a clean second cycle; the paired cycle releases it both times |
| Notify.WithData | custom_components/webuntis/__init__.py:912-914 | a non-empty `notify_data` replaces the "data" entry and nothing else; an empty one changes nothing |
| Notify.UpdateNotify | custom_components/webuntis/__init__.py:888-925 | the kept snapshot is always the new one; the first call, or a call whose comparison finds nothing, sends nothing; otherwise one notification is sent per message, each with the configured data |
| Notify.RotateKeepsLatest | custom_components/webuntis/__init__.py:893-895 | after any run of calls the kept snapshot is the latest |
| Notify.BaselineThenCompare | custom_components/webuntis/__init__.py:893-903 | the first call only records a baseline; the second call sends something only if comparing the baseline with its own snapshot finds a change |
| Notify.UnchangedSendsNothing | custom_components/webuntis/__init__.py:897-905 | if the detector finds no change between equal snapshots, a call that sees the kept snapshot again sends nothing |
| Notify.ServiceTarget | custom_components/webuntis/__init__.py:931-932 | the domain and service exist exactly when the entity id has a dot; neither has a dot; the domain, a dot and the service start the entity id, and are followed by its end or another dot |
| Notify.ServiceTargetJoins | custom_components/webuntis/__init__.py:931-932 | an entity id with exactly one dot is its domain, the dot and its service |
| Options.Migrate | custom_components/webuntis/__init__.py:79-85 | the version becomes 14; the options are the entry's own options plus a default for every missing one, and the entry's own values are kept |
| Options.MigrateIdempotent | custom_components/webuntis/__init__.py:79-85 | migrating twice is the same as migrating once |
| Options.MigrateKeepsUserOptions | custom_components/webuntis/__init__.py:82-84 | migration never changes an option the entry already has |
| Options.ReadConfig | custom_components/webuntis/__init__.py:132-154 | the configuration is read exactly when every one of the fifteen options is present with a value of its kind; each of the fifteen fields is the stored value; and notifications are on (`Lessons.NotifyEnabled`) exactly when the stored target is not the empty text and the stored option list is not empty, as `bool(...)` reads them |
| Options.MigratedOptionsRead | custom_components/webuntis/__init__.py:79-85 | after migration every option can be read, provided the entry's own values have the right kind |
| Options.DefaultConfig | custom_components/webuntis/const.py:6-22 | with the defaults, notifications and JSON are off, nothing is excluded, the session is not kept, the filter mode is "None" and the room mode is "long name" |
| Options.ClampEnd | custom_components/webuntis/__init__.py:466-470 | the end is the smaller of the requested end and a known school-year end |
| Options.ClampEndStable | custom_components/webuntis/__init__.py:466-470 | clamping twice equals clamping once, and an end within the school year, or with no known school year, is unchanged |

## Left out

- Home Assistant glue is not modelled: setup and unload, entities, dispatcher signals, periodic scheduling and the issue registry. It is host plumbing; the repair issue appears only as a flag of `Session.Login`.
- The remote session calls (`timetable`, `timetable_extended`, `schoolyears`, `subjects`, `get_student`, `klassen`, `logout`) are not modelled. Timetables are input sequences and call outcomes are parameters. `get_timetable_object` and `_async_status_request`'s assignments of derived values are left out for the same reason.
- `compare_list`, `compact_list`, `get_notification`, `get_notify_blacklist` and `get_schoolyear` are defined in `notify.py` and `utils.py`, which are not part of this model. `update_notify` takes them as parameters. The compaction steps of `_get_events` and `_get_events_in_timerange` are not modelled. `ClampEnd` receives the school-year end that `get_schoolyear` would find.
- Timezone conversion, `json.dumps` text, `str()` of values, and `CalendarEvent` objects are left out. The model keeps key sets, field choices and times in minutes.
- Logging is left out, and so is the once-only log message that `_last_status_request_failed` controls. The flag itself is modelled. The code never resets it, and the model does not either.
- The concurrent interleaving of update cycles is not modelled. Cycles run one after another, and `updating` is a plain integer.
- Calendar.FormatEvent: its contract states only the times; the summary, description and location are stated by `Summary`, `EventDescription` and `Location`.
- The order in which `_async_status_request` assigns the derived values is not modelled. Each of `Derived.NextClassJson`, `Derived.NextDayJson`, `Calendar.GetEvents` and `Calendar.EventsInTimeRange` takes the exclusion list it starts from as `excludeData` of its configuration and returns the list it leaves.
- Calendar.GetEvents: when building a notification record raises, `_get_events` has already partly filled `self.event_list`; the model returns None and does not describe that partial list. Nor does it describe the exclusion list at that point, which may already hold "teachers".
- Lessons without `code`, `subjects`, `lstext`, `substText`, `rooms` or `original_rooms` cannot be represented. Where `check_lesson` or `_get_events` reads such an attribute, the code raises `AttributeError`. The update cycle's handlers catch only `OSError`, so nothing catches it.
- Session.Logout: a `logout()` call that raises is not modelled. The counter is already decremented at that point and `_loged_in` stays set.
- Options.ReadConfig: a stored value of another kind than the option's (a text where a flag belongs, say) makes the model return None. `__init__` only indexes the options, so it raises only for a missing key and keeps a value of the wrong kind, which fails, if at all, where it is used. A typed configuration cannot hold such a value.
- Options.ReadConfig: an option stored under a name outside the fifteen is `OtherOption(name)` even if the name spells one of them. The model assumes stored entries do not do that.
- Notify.UpdateNotify: the delivery of each notification through `async_notify` (and its catch-all handler) is represented by the list of notifications sent, in order. A delivery that fails still counts as sent.

## Findings

| source | as written | input that shows it | evidently intended | confidence | as-written member | corrected member |
|---|---|---|---|---|---|---|
| custom_components/webuntis/__init__.py:211-362 | After a successful login, the cycle's handlers catch only `OSError`. Any other exception leaves `_async_status_request` before its final `webuntis_logout`, so `updating` stays one higher for good. With `keep_loged_in` off, no later logout brings it back to zero, and the session is never released again. | Notifications are on, and a lesson within the next 30 days passes the filter but has no `id`. `get_lesson_for_notify` raises a `TypeError` inside `_get_events` (this case is `Calendar.GetEvents` returning None). | Every successful login is paired with one logout, as a `try`/`finally` would do. | medium, not executed | Session.StatusRequest, Session.EscapeSkipsLogout | Session.StatusRequestPaired, Session.PairedCyclesBalance |
