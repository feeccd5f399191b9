/** `get_lesson_json` and `get_lesson_for_notify`, modelled at the level of
    which keys the produced dictionary has. */
module Projection {
  import opened Wrappers
  import opened Lessons

  /** The entry of `exclude_data` that stops teachers from being read. */
  const TeachersKey: string := "teachers"

  /** The dictionary keys the two projections write, spelled "start",
      "end", "id", "code", "type", "subjects", "lstext", "substText",
      "lsnumber", "rooms", "klassen", "original_rooms", "teachers",
      "original_teachers" and "subject_id". */
  datatype Key =
    | Start | End | Id | Code | Type | Subjects | LsText | SubstText | LsNumber
    | Rooms | Klassen | OriginalRooms | Teachers | OriginalTeachers | SubjectId

  /** Every key `get_lesson_json` can write: all but the subject id. */
  const AllJsonKeys: set<Key> :=
    {Start, End, Id, Code, Type, Subjects, LsText, SubstText, LsNumber,
     Rooms, Klassen, OriginalRooms, Teachers, OriginalTeachers}

  /** The keys `get_lesson_json` writes whatever the options and the lesson. */
  predicate HasCoreKeys(keys: set<Key>)
  {
    Start in keys && End in keys && Code in keys && Subjects in keys && Rooms in keys && OriginalRooms in keys
  }

  /** Whether `get_lesson_json` writes key `k` for this lesson, once JSON
      generation is on: the optional fields only when the lesson has them,
      the extended fields only with the extended timetable, the teacher
      fields only while teachers are not excluded. */
  predicate JsonWrites(k: Key, l: Lesson, cfg: Config)
  {
    match k
    case Start => true
    case End => true
    case Id => l.id.Some?
    case Code => true
    case Type => l.lessonType.Some?
    case Subjects => true
    case LsText => cfg.extendedTimetable
    case SubstText => cfg.extendedTimetable
    case LsNumber => cfg.extendedTimetable && l.lsNumber.Some?
    case Rooms => true
    case Klassen => l.klassen.Some?
    case OriginalRooms => true
    case Teachers => TeachersKey !in cfg.excludeData && l.teachers.Granted?
    case OriginalTeachers => TeachersKey !in cfg.excludeData && l.originalTeachers.Some?
    case SubjectId => false
  }

  /** The key set of `get_lesson_json(lesson, force)`; None stands for the
      "JSON data is disabled" message returned when neither `generate_json`
      nor `force` is set. The JSON always has the core keys and never the
      subject id; each optional field is in it exactly when the lesson has
      it and the options let it through. */
  function JsonKeys(l: Lesson, cfg: Config, force: bool): (r: Option<set<Key>>)
    ensures r.None? <==> !cfg.generateJson && !force
    ensures r.Some? ==> HasCoreKeys(r.value) && SubjectId !in r.value
    ensures r.Some? ==>
              && (Id in r.value <==> l.id.Some?)
              && (Type in r.value <==> l.lessonType.Some?)
              && (Klassen in r.value <==> l.klassen.Some?)
    ensures r.Some? ==>
              && (LsText in r.value <==> cfg.extendedTimetable)
              && (SubstText in r.value <==> cfg.extendedTimetable)
              && (LsNumber in r.value <==> cfg.extendedTimetable && l.lsNumber.Some?)
    ensures r.Some? ==>
              && (Teachers in r.value <==> TeachersKey !in cfg.excludeData && l.teachers.Granted?)
              && (OriginalTeachers in r.value <==> TeachersKey !in cfg.excludeData && l.originalTeachers.Some?)
  {
    if !cfg.generateJson && !force then None
    else
      var keys := set k | k in AllJsonKeys && JsonWrites(k, l, cfg);
      WrittenCoreFields(keys, l, cfg);
      WrittenOptionalFields(keys, l, cfg);
      Some(keys)
  }

  /** The core keys of a written key set, and the absent subject id. */
  lemma WrittenCoreFields(keys: set<Key>, l: Lesson, cfg: Config)
    requires forall k :: k in keys <==> k in AllJsonKeys && JsonWrites(k, l, cfg)
    ensures HasCoreKeys(keys) && SubjectId !in keys
  {
    assert JsonWrites(Start, l, cfg) && JsonWrites(End, l, cfg) && JsonWrites(Code, l, cfg);
    assert JsonWrites(Subjects, l, cfg) && JsonWrites(Rooms, l, cfg) && JsonWrites(OriginalRooms, l, cfg);
  }

  /** The optional keys of a written key set. */
  lemma WrittenOptionalFields(keys: set<Key>, l: Lesson, cfg: Config)
    requires forall k :: k in keys <==> k in AllJsonKeys && JsonWrites(k, l, cfg)
    ensures && (Id in keys <==> l.id.Some?)
            && (Type in keys <==> l.lessonType.Some?)
            && (Klassen in keys <==> l.klassen.Some?)
            && (LsText in keys <==> cfg.extendedTimetable)
            && (SubstText in keys <==> cfg.extendedTimetable)
            && (LsNumber in keys <==> cfg.extendedTimetable && l.lsNumber.Some?)
            && (Teachers in keys <==> TeachersKey !in cfg.excludeData && l.teachers.Granted?)
            && (OriginalTeachers in keys <==> TeachersKey !in cfg.excludeData && l.originalTeachers.Some?)
  {
    assert Id in AllJsonKeys && Type in AllJsonKeys && Klassen in AllJsonKeys && LsText in AllJsonKeys;
    assert SubstText in AllJsonKeys && LsNumber in AllJsonKeys && Teachers in AllJsonKeys;
    assert OriginalTeachers in AllJsonKeys;
  }

  /** Only the teacher keys depend on the exclusion list. */
  lemma ExclusionOnlyTouchesTeachers(l: Lesson, cfg: Config, excluded: seq<string>, force: bool)
    requires cfg.generateJson || force
    ensures var other := cfg.(excludeData := excluded);
            forall k :: k != Teachers && k != OriginalTeachers ==>
              (k in JsonKeys(l, other, force).value <==> k in JsonKeys(l, cfg, force).value)
  {
    var other := cfg.(excludeData := excluded);
    forall k | k != Teachers && k != OriginalTeachers
      ensures k in JsonKeys(l, other, force).value <==> k in JsonKeys(l, cfg, force).value
    {
      assert JsonWrites(k, l, other) == JsonWrites(k, l, cfg);
    }
  }

  /** `exclude_data` after `get_lesson_json`: reading teachers without the
      right for `getTeachers()` puts "teachers" on the list (`exclude_data_`). */
  function ExcludeAfterJson(l: Lesson, cfg: Config, force: bool): (r: seq<string>)
    ensures |r| <= |cfg.excludeData| + 1
    ensures cfg.excludeData <= r
    ensures r != cfg.excludeData <==>
              (cfg.generateJson || force) && TeachersKey !in cfg.excludeData && l.teachers.NoRight?
    ensures r != cfg.excludeData ==> r == cfg.excludeData + [TeachersKey]
  {
    if (cfg.generateJson || force) && TeachersKey !in cfg.excludeData && l.teachers.NoRight?
    then cfg.excludeData + [TeachersKey]
    else cfg.excludeData
  }

  /** Once a lesson has been refused teachers, no later JSON, for any lesson,
      has a teachers key, and the exclusion list stops growing. */
  lemma TeachersStayExcluded(l: Lesson, cfg: Config, force: bool, later: Lesson, force': bool)
    requires l.teachers.NoRight? && (cfg.generateJson || force)
    ensures var cfg' := cfg.(excludeData := ExcludeAfterJson(l, cfg, force));
            && (JsonKeys(later, cfg', force').Some? ==>
                  Teachers !in JsonKeys(later, cfg', force').value && OriginalTeachers !in JsonKeys(later, cfg', force').value)
            && ExcludeAfterJson(later, cfg', force') == cfg'.excludeData
  {
    var cfg' := cfg.(excludeData := ExcludeAfterJson(l, cfg, force));
    assert TeachersKey in cfg'.excludeData by {
      if TeachersKey !in cfg.excludeData {
        assert cfg'.excludeData[|cfg.excludeData|] == TeachersKey;
      }
    }
  }

  /** `exclude_data` after `get_lesson_json(lesson, force)` has been called
      on each of `ls` in turn: "teachers" is added once, by the first lesson
      refused its teachers, unless it was on the list already. */
  function ExcludeAfterEach(ls: seq<Lesson>, cfg: Config, force: bool): (r: seq<string>)
    ensures cfg.excludeData <= r
    ensures r != cfg.excludeData <==>
              && (cfg.generateJson || force) && TeachersKey !in cfg.excludeData
              && exists i :: 0 <= i < |ls| && ls[i].teachers.NoRight?
    ensures r != cfg.excludeData ==> r == cfg.excludeData + [TeachersKey]
    decreases |ls|
  {
    if |ls| == 0 then cfg.excludeData
    else
      var cfg' := cfg.(excludeData := ExcludeAfterJson(ls[0], cfg, force));
      assert (exists i :: 0 <= i < |ls| && ls[i].teachers.NoRight?) <==>
             ls[0].teachers.NoRight? || exists i :: 0 <= i < |ls[1..]| && ls[1..][i].teachers.NoRight? by {
        if i :| 0 <= i < |ls| && ls[i].teachers.NoRight? {
          if i > 0 { assert ls[1..][i - 1] == ls[i]; }
        }
      }
      ExcludeAfterEach(ls[1..], cfg', force)
  }

  /** No lesson before position `i` was refused its teachers. */
  predicate NoRefusalBefore(ls: seq<Lesson>, i: int)
  {
    forall j :: 0 <= j < i && j < |ls| ==> !ls[j].teachers.NoRight?
  }

  /** Every key set of `r` other than the teacher keys is as a single call
      of `get_lesson_json` with the options `cfg` writes it. */
  ghost predicate OthersAsSingle(r: seq<Option<set<Key>>>, ls: seq<Lesson>, cfg: Config, force: bool)
    requires |r| == |ls|
  {
    forall i, k ::
      0 <= i < |ls| && (cfg.generateJson || force) && r[i].Some? && k != Teachers && k != OriginalTeachers ==>
      (k in r[i].value <==> k in JsonKeys(ls[i], cfg, force).value)
  }

  /** Every key but the two teacher keys is in `keys` exactly when a single
      call of `get_lesson_json(l, force)` with the options `cfg` writes it. */
  ghost predicate SingleOutsideTeachers(keys: set<Key>, l: Lesson, cfg: Config, force: bool)
    requires cfg.generateJson || force
  {
    forall k :: k != Teachers && k != OriginalTeachers ==> (k in keys <==> k in JsonKeys(l, cfg, force).value)
  }

  /** The teacher keys of `r` are written only while no earlier lesson has
      been refused its teachers. */
  ghost predicate TeachersUntilRefusal(r: seq<Option<set<Key>>>, ls: seq<Lesson>, cfg: Config)
    requires |r| == |ls|
  {
    forall i :: 0 <= i < |ls| && r[i].Some? ==>
      && (Teachers in r[i].value <==>
            TeachersKey !in cfg.excludeData && ls[i].teachers.Granted? && NoRefusalBefore(ls, i))
      && (OriginalTeachers in r[i].value <==>
            TeachersKey !in cfg.excludeData && ls[i].originalTeachers.Some? && NoRefusalBefore(ls, i))
  }

  /** The key sets of `get_lesson_json(lesson, force)` called on each of `ls`
      in turn, as the loops of `_next_day_json`, `_get_events` and
      `_get_events_in_timerange` call it. Each call sees the exclusion list
      the calls before it left: a lesson has the teacher keys only when no
      earlier lesson was refused its teachers; every other key is as for a
      single call. */
  function JsonKeysEach(ls: seq<Lesson>, cfg: Config, force: bool): (r: seq<Option<set<Key>>>)
    ensures |r| == |ls|
    ensures forall i :: 0 <= i < |ls| ==> (r[i].None? <==> !cfg.generateJson && !force)
    ensures forall i :: 0 <= i < |ls| && r[i].Some? ==> HasCoreKeys(r[i].value) && SubjectId !in r[i].value
    ensures OthersAsSingle(r, ls, cfg, force)
    ensures TeachersUntilRefusal(r, ls, cfg)
    decreases |ls|
  {
    if |ls| == 0 then []
    else
      var cfg' := cfg.(excludeData := ExcludeAfterJson(ls[0], cfg, force));
      var rest := JsonKeysEach(ls[1..], cfg', force);
      var r := [JsonKeys(ls[0], cfg, force)] + rest;
      OthersStep(ls, cfg, force, rest);
      TeachersStep(ls, cfg, force, rest);
      EachCoreKeys(r, ls, cfg, force);
      r
  }

  /** Key sets that agree with single calls outside the teacher keys have
      the core keys and no subject id. */
  lemma EachCoreKeys(r: seq<Option<set<Key>>>, ls: seq<Lesson>, cfg: Config, force: bool)
    requires |r| == |ls| && OthersAsSingle(r, ls, cfg, force)
    requires forall i :: 0 <= i < |ls| ==> (r[i].None? <==> !cfg.generateJson && !force)
    ensures forall i :: 0 <= i < |ls| && r[i].Some? ==> HasCoreKeys(r[i].value) && SubjectId !in r[i].value
  {
    forall i | 0 <= i < |ls| && r[i].Some?
      ensures HasCoreKeys(r[i].value) && SubjectId !in r[i].value
    {
      var single := JsonKeys(ls[i], cfg, force).value;
      assert Start in r[i].value <==> Start in single;
      assert End in r[i].value <==> End in single;
      assert Code in r[i].value <==> Code in single;
      assert Subjects in r[i].value <==> Subjects in single;
      assert Rooms in r[i].value <==> Rooms in single;
      assert OriginalRooms in r[i].value <==> OriginalRooms in single;
      assert SubjectId in r[i].value <==> SubjectId in single;
    }
  }

  /** `OthersAsSingle` for `ls` from the same for its tail, which runs with
      the list the first call left. */
  lemma OthersStep(ls: seq<Lesson>, cfg: Config, force: bool, rest: seq<Option<set<Key>>>)
    requires |ls| > 0 && |rest| == |ls| - 1
    requires OthersAsSingle(rest, ls[1..], cfg.(excludeData := ExcludeAfterJson(ls[0], cfg, force)), force)
    ensures OthersAsSingle([JsonKeys(ls[0], cfg, force)] + rest, ls, cfg, force)
  {
    var cfg' := cfg.(excludeData := ExcludeAfterJson(ls[0], cfg, force));
    var r := [JsonKeys(ls[0], cfg, force)] + rest;
    forall i, k | 0 <= i < |ls| && (cfg.generateJson || force) && r[i].Some? && k != Teachers && k != OriginalTeachers
      ensures k in r[i].value <==> k in JsonKeys(ls[i], cfg, force).value
    {
      if i > 0 {
        assert r[i] == rest[i - 1] && ls[i] == ls[1..][i - 1];
        ExclusionOnlyTouchesTeachers(ls[i], cfg, cfg'.excludeData, force);
      }
    }
  }

  /** `TeachersUntilRefusal` for `ls` from the same for its tail, which runs
      with the list the first call left. */
  lemma TeachersStep(ls: seq<Lesson>, cfg: Config, force: bool, rest: seq<Option<set<Key>>>)
    requires |ls| > 0 && |rest| == |ls| - 1
    requires forall i :: 0 <= i < |rest| ==> (rest[i].None? <==> !cfg.generateJson && !force)
    requires TeachersUntilRefusal(rest, ls[1..], cfg.(excludeData := ExcludeAfterJson(ls[0], cfg, force)))
    ensures TeachersUntilRefusal([JsonKeys(ls[0], cfg, force)] + rest, ls, cfg)
  {
    var cfg' := cfg.(excludeData := ExcludeAfterJson(ls[0], cfg, force));
    var r := [JsonKeys(ls[0], cfg, force)] + rest;
    assert TeachersKey in cfg'.excludeData <==>
             TeachersKey in cfg.excludeData || ((cfg.generateJson || force) && ls[0].teachers.NoRight?) by {
      if cfg'.excludeData != cfg.excludeData {
        assert cfg'.excludeData[|cfg.excludeData|] == TeachersKey;
      }
    }
    forall i | 1 <= i < |ls| && r[i].Some?
      ensures NoRefusalBefore(ls, i) <==> !ls[0].teachers.NoRight? && NoRefusalBefore(ls[1..], i - 1)
      ensures r[i] == rest[i - 1] && ls[i] == ls[1..][i - 1]
    {
      if j :| 0 <= j < i && ls[j].teachers.NoRight? {
        if j > 0 { assert ls[1..][j - 1] == ls[j]; }
      }
    }
  }

  /** What a loop calling `get_lesson_json(lesson, force)` on each of `ls`
      leaves: the key set of every dictionary, and the exclusion list. */
  datatype Rendered = Rendered(keys: seq<set<Key>>, excludeData: seq<string>)

  /** The loop of `JsonKeysEach` with JSON on, so that every call returns
      a dictionary: the teacher key appears only up to the first lesson
      refused its teachers, and that refusal puts "teachers" on the list. */
  function RenderEach(ls: seq<Lesson>, cfg: Config, force: bool): (r: Rendered)
    requires cfg.generateJson || force
    ensures |r.keys| == |ls|
    ensures forall i :: 0 <= i < |ls| ==> HasCoreKeys(r.keys[i]) && SubjectId !in r.keys[i]
    ensures forall i :: 0 <= i < |ls| ==> SingleOutsideTeachers(r.keys[i], ls[i], cfg, force)
    ensures forall i :: 0 <= i < |ls| ==>
              (Teachers in r.keys[i] <==>
                 TeachersKey !in cfg.excludeData && ls[i].teachers.Granted? && NoRefusalBefore(ls, i))
    ensures forall i :: 0 <= i < |ls| ==>
              (OriginalTeachers in r.keys[i] <==>
                 TeachersKey !in cfg.excludeData && ls[i].originalTeachers.Some? && NoRefusalBefore(ls, i))
    ensures r.excludeData == if TeachersKey !in cfg.excludeData && !NoRefusalBefore(ls, |ls|)
                             then cfg.excludeData + [TeachersKey] else cfg.excludeData
  {
    var each := JsonKeysEach(ls, cfg, force);
    var keys := seq(|each|, i requires 0 <= i < |each| => each[i].value);
    RenderedKeys(ls, cfg, force, each, keys);
    RenderedExclusion(ls, cfg, force);
    Rendered(keys, ExcludeAfterEach(ls, cfg, force))
  }

  /** The key sets of a run of calls that all returned a dictionary. */
  lemma RenderedKeys(ls: seq<Lesson>, cfg: Config, force: bool, each: seq<Option<set<Key>>>, keys: seq<set<Key>>)
    requires cfg.generateJson || force
    requires |each| == |ls| && |keys| == |ls|
    requires forall i :: 0 <= i < |ls| ==> each[i].Some? && keys[i] == each[i].value
    requires forall i :: 0 <= i < |ls| && each[i].Some? ==> HasCoreKeys(each[i].value) && SubjectId !in each[i].value
    requires OthersAsSingle(each, ls, cfg, force)
    requires TeachersUntilRefusal(each, ls, cfg)
    ensures forall i :: 0 <= i < |ls| ==> HasCoreKeys(keys[i]) && SubjectId !in keys[i]
    ensures forall i :: 0 <= i < |ls| ==> SingleOutsideTeachers(keys[i], ls[i], cfg, force)
    ensures forall i :: 0 <= i < |ls| ==>
              (Teachers in keys[i] <==>
                 TeachersKey !in cfg.excludeData && ls[i].teachers.Granted? && NoRefusalBefore(ls, i))
    ensures forall i :: 0 <= i < |ls| ==>
              (OriginalTeachers in keys[i] <==>
                 TeachersKey !in cfg.excludeData && ls[i].originalTeachers.Some? && NoRefusalBefore(ls, i))
  {
  }

  /** The exclusion list after the loop, in terms of refusals. */
  lemma RenderedExclusion(ls: seq<Lesson>, cfg: Config, force: bool)
    requires cfg.generateJson || force
    ensures ExcludeAfterEach(ls, cfg, force) ==
              if TeachersKey !in cfg.excludeData && !NoRefusalBefore(ls, |ls|)
              then cfg.excludeData + [TeachersKey] else cfg.excludeData
  {
    assert !NoRefusalBefore(ls, |ls|) <==> exists i :: 0 <= i < |ls| && ls[i].teachers.NoRight?;
  }

  /** When no lesson is refused its teachers, each call of the loop writes
      what a single call writes, and the exclusion list is left as it was. */
  lemma {:induction false} EachWithoutRefusal(ls: seq<Lesson>, cfg: Config, force: bool)
    requires NoRefusalBefore(ls, |ls|)
    ensures forall i :: 0 <= i < |ls| ==> JsonKeysEach(ls, cfg, force)[i] == JsonKeys(ls[i], cfg, force)
    ensures ExcludeAfterEach(ls, cfg, force) == cfg.excludeData
    decreases |ls|
  {
    if |ls| > 0 {
      var rest := JsonKeysEach(ls[1..], cfg, force);
      assert NoRefusalBefore(ls[1..], |ls| - 1) by {
        forall j | 0 <= j < |ls| - 1 ensures !ls[1..][j].teachers.NoRight? {
          assert ls[1..][j] == ls[j + 1];
        }
      }
      EachWithoutRefusal(ls[1..], cfg, force);
      EachUnfold(ls, cfg, force);
      SinglesCons(ls, cfg, force, JsonKeysEach(ls, cfg, force), JsonKeysEach(ls[1..], cfg, force));
    }
  }

  /** Single calls on the tail, with a single call on the head in front,
      are single calls on the whole. */
  lemma SinglesCons(ls: seq<Lesson>, cfg: Config, force: bool, r: seq<Option<set<Key>>>, rest: seq<Option<set<Key>>>)
    requires |ls| > 0 && r == [JsonKeys(ls[0], cfg, force)] + rest && |rest| == |ls| - 1
    requires forall i :: 0 <= i < |rest| ==> rest[i] == JsonKeys(ls[1..][i], cfg, force)
    ensures forall i :: 0 <= i < |ls| ==> r[i] == JsonKeys(ls[i], cfg, force)
  {
    forall i | 1 <= i < |ls| ensures r[i] == JsonKeys(ls[i], cfg, force) {
      assert r[i] == rest[i - 1] && ls[i] == ls[1..][i - 1];
    }
  }

  /** The first call of the loop, when it is not refused its teachers,
      leaves the options as they were for the rest. */
  lemma EachUnfold(ls: seq<Lesson>, cfg: Config, force: bool)
    requires |ls| > 0 && !ls[0].teachers.NoRight?
    ensures JsonKeysEach(ls, cfg, force) == [JsonKeys(ls[0], cfg, force)] + JsonKeysEach(ls[1..], cfg, force)
  {
    assert cfg.(excludeData := ExcludeAfterJson(ls[0], cfg, force)) == cfg;
  }

  /** The record `get_lesson_for_notify` builds for the change detector. */
  datatype NotifyEvent = NotifyEvent(
    start: int,
    end: int,
    subjectId: int,
    id: int,
    lsNumber: int,
    code: string,
    lessonType: Option<string>,
    subjects: seq<Subject>,
    rooms: seq<Named>,
    originalRooms: seq<Named>
  )

  /** `get_lesson_for_notify`: None when the primary subject, the id or the
      lesson number is missing, where `get_lesson_for_notify` raises. */
  function NotifyRecord(l: Lesson): (r: Option<NotifyEvent>)
    ensures r.Some? <==> |l.subjects| > 0 && l.id.Some? && l.lsNumber.Some?
    ensures r.Some? ==> r.value.start == l.start && r.value.end == l.end && r.value.code == l.code
    ensures r.Some? ==> r.value.subjectId == l.subjects[0].id && r.value.id == l.id.value
    ensures r.Some? ==> r.value.lsNumber == l.lsNumber.value && r.value.lessonType == l.lessonType
    ensures r.Some? ==> r.value.subjects == l.subjects
    ensures r.Some? ==> r.value.rooms == l.rooms && r.value.originalRooms == l.originalRooms
  {
    if |l.subjects| == 0 || l.id.None? || l.lsNumber.None? then None
    else Some(NotifyEvent(l.start, l.end, l.subjects[0].id, l.id.value, l.lsNumber.value,
                          l.code, l.lessonType, l.subjects, l.rooms, l.originalRooms))
  }

  /** The key set of the dictionary `get_lesson_for_notify` returns. */
  function NotifyKeys(e: NotifyEvent): (r: set<Key>)
    ensures {Start, End, SubjectId, Id, LsNumber} <= r
    ensures Code in r && Subjects in r && Rooms in r && OriginalRooms in r
    ensures Type in r <==> e.lessonType.Some?
    ensures r * {LsText, SubstText, Klassen, Teachers, OriginalTeachers} == {}
  {
    {Start, End, SubjectId, Id, LsNumber, Code, Subjects, Rooms, OriginalRooms}
    + (if e.lessonType.Some? then {Type} else {})
  }

  /** What the notification record holds is, apart from the subject id and
      the lesson number, also in the lesson's forced JSON; with the extended
      timetable only the subject id is extra. */
  lemma NotifyKeysWithinJson(l: Lesson, cfg: Config)
    requires NotifyRecord(l).Some?
    ensures NotifyKeys(NotifyRecord(l).value) - {SubjectId, LsNumber} <= JsonKeys(l, cfg, true).value
    ensures cfg.extendedTimetable ==>
              NotifyKeys(NotifyRecord(l).value) - {SubjectId} <= JsonKeys(l, cfg, true).value
  {
  }
}
