/** The stored options: default-filling in `async_migrate_entry`, reading
    them into a configuration, and the clamp of a timetable request's end
    date to the end of the school year in `get_timetable`. */
module Options {
  import opened Wrappers
  import opened Lessons

  /** The kinds of value an option holds. */
  datatype OptValue = Flag(flag: bool) | Text(text: string) | Items(items: seq<string>) | Dict(entries: map<string, string>)

  /** The option names: the fifteen the integration reads, and any other
      name a stored entry may hold. They are stored as "calendar_long_name",
      "calendar_show_cancelled_lessons", "keep_loged_in", "filter_mode",
      "filter_subjects", "generate_json", "exclude_data",
      "filter_description", "extended_timetable", "calendar_description",
      "calendar_room", "calendar_show_room_change", "notify_entity_id",
      "notify_options" and "notify_data". */
  datatype OptionKey =
    | CalendarLongName | CalendarShowCancelled | KeepLoggedIn | FilterMode | FilterSubjects
    | GenerateJson | ExcludeData | FilterDescription | ExtendedTimetable | CalendarDescription
    | CalendarRoom | CalendarShowRoomChange | NotifyEntityId | NotifyOptions | NotifyData
    | OtherOption(name: string)

  type Options = map<OptionKey, OptValue>

  const ConfigEntryVersion: int := 14

  /** The fifteen options and their defaults. */
  const DefaultOptions: Options := map[
    CalendarLongName := Flag(true),
    CalendarShowCancelled := Flag(false),
    KeepLoggedIn := Flag(false),
    FilterMode := Text(ModeNone),
    FilterSubjects := Items([]),
    GenerateJson := Flag(false),
    ExcludeData := Items([]),
    FilterDescription := Items([]),
    ExtendedTimetable := Flag(false),
    CalendarDescription := Text("JSON"),
    CalendarRoom := Text("long name"),
    CalendarShowRoomChange := Flag(false),
    NotifyEntityId := Text(""),
    NotifyOptions := Items([]),
    NotifyData := Dict(map[])
  ]

  /** A migrated entry: its options and its version. */
  datatype Entry = Entry(options: Options, version: int)

  /** `async_migrate_entry`: every option the entry lacks gets its default;
      the options it has are kept as they are, including unknown ones. */
  function Migrate(options: Options): (r: Entry)
    ensures r.version == ConfigEntryVersion
    ensures r.options.Keys == options.Keys + DefaultOptions.Keys
    ensures forall k :: k in options ==> r.options[k] == options[k]
    ensures forall k :: k in DefaultOptions && k !in options ==> r.options[k] == DefaultOptions[k]
  {
    Entry(map k | k in options.Keys + DefaultOptions.Keys :: if k in options then options[k] else DefaultOptions[k],
          ConfigEntryVersion)
  }

  /** Migrating a migrated entry changes nothing. */
  lemma MigrateIdempotent(options: Options)
    ensures Migrate(Migrate(options).options) == Migrate(options)
  {
  }

  /** Migration never changes an option the user has set. */
  lemma MigrateKeepsUserOptions(options: Options)
    ensures options.Items <= Migrate(options).options.Items
  {
  }

  predicate HasFlag(options: Options, key: OptionKey)
  {
    key in options && options[key].Flag?
  }

  predicate HasText(options: Options, key: OptionKey)
  {
    key in options && options[key].Text?
  }

  predicate HasItems(options: Options, key: OptionKey)
  {
    key in options && options[key].Items?
  }

  predicate HasDict(options: Options, key: OptionKey)
  {
    key in options && options[key].Dict?
  }

  /** Every option the setup reads is present with a value of its kind. */
  predicate Readable(options: Options)
  {
    && HasFlag(options, CalendarLongName)
    && HasFlag(options, CalendarShowCancelled)
    && HasFlag(options, KeepLoggedIn)
    && HasText(options, FilterMode)
    && HasItems(options, FilterSubjects)
    && HasFlag(options, GenerateJson)
    && HasItems(options, ExcludeData)
    && HasItems(options, FilterDescription)
    && HasFlag(options, ExtendedTimetable)
    && HasText(options, CalendarDescription)
    && HasText(options, CalendarRoom)
    && HasFlag(options, CalendarShowRoomChange)
    && HasText(options, NotifyEntityId)
    && HasItems(options, NotifyOptions)
    && HasDict(options, NotifyData)
  }

  predicate SameKind(a: OptValue, b: OptValue)
  {
    (a.Flag? && b.Flag?) || (a.Text? && b.Text?) || (a.Items? && b.Items?) || (a.Dict? && b.Dict?)
  }

  /** The options read when the integration is set up; None when one is
      missing, where `config.options[...]` raises `KeyError`, or holds a
      value of another kind. Notifications are on when the stored target
      and option list are both non-empty, as `bool(...)` reads them. */
  function ReadConfig(options: Options): (r: Option<Config>)
    ensures r.Some? <==> Readable(options)
    ensures r.Some? ==> options[CalendarRoom] == Text(r.value.calendarRoom)
    ensures r.Some? ==> options[FilterMode] == Text(r.value.filterMode)
    ensures r.Some? ==> options[NotifyEntityId] == Text(r.value.notifyEntityId)
    ensures r.Some? ==> options[NotifyOptions] == Items(r.value.notifyOptions)
    ensures r.Some? ==> options[ExcludeData] == Items(r.value.excludeData)
    ensures r.Some? ==> options[GenerateJson] == Flag(r.value.generateJson)
    ensures r.Some? ==> options[KeepLoggedIn] == Flag(r.value.keepLoggedIn)
    ensures r.Some? ==> options[CalendarLongName] == Flag(r.value.calendarLongName)
    ensures r.Some? ==> options[CalendarShowCancelled] == Flag(r.value.calendarShowCancelled)
    ensures r.Some? ==> options[FilterSubjects] == Items(r.value.filterSubjects)
    ensures r.Some? ==> options[FilterDescription] == Items(r.value.filterDescription)
    ensures r.Some? ==> options[ExtendedTimetable] == Flag(r.value.extendedTimetable)
    ensures r.Some? ==> options[CalendarDescription] == Text(r.value.calendarDescription)
    ensures r.Some? ==> options[CalendarShowRoomChange] == Flag(r.value.calendarShowRoomChange)
    ensures r.Some? ==> options[NotifyData] == Dict(r.value.notifyData)
    ensures r.Some? ==>
      (NotifyEnabled(r.value) <==> options[NotifyEntityId] != Text("") && options[NotifyOptions] != Items([]))
  {
    if Readable(options) then
      Some(Config(
        options[CalendarLongName].flag,
        options[CalendarShowCancelled].flag,
        options[KeepLoggedIn].flag,
        options[FilterMode].text,
        options[FilterSubjects].items,
        options[GenerateJson].flag,
        options[ExcludeData].items,
        options[FilterDescription].items,
        options[ExtendedTimetable].flag,
        options[CalendarDescription].text,
        options[CalendarRoom].text,
        options[CalendarShowRoomChange].flag,
        options[NotifyEntityId].text,
        options[NotifyOptions].items,
        options[NotifyData].entries))
    else None
  }

  /** After migration the setup reads every option, provided the options
      the entry already had hold values of the right kind. */
  lemma MigratedOptionsRead(options: Options)
    requires forall k :: k in options && k in DefaultOptions ==> SameKind(options[k], DefaultOptions[k])
    ensures ReadConfig(Migrate(options).options).Some?
  {
    var migrated := Migrate(options).options;
    forall k | k in DefaultOptions
      ensures k in migrated && SameKind(migrated[k], DefaultOptions[k])
    {
      if k !in options {
        assert migrated[k] == DefaultOptions[k];
      }
    }
    DefaultKindsReadable(migrated);
  }

  /** Options holding every default's key with a value of the default's kind
      are readable. */
  lemma DefaultKindsReadable(options: Options)
    requires forall k :: k in DefaultOptions ==> k in options && SameKind(options[k], DefaultOptions[k])
    ensures Readable(options)
  {
    DefaultFlags();
    DefaultTexts();
    DefaultCollections();
  }

  /** The defaults of the six switches are flags. */
  lemma DefaultFlags()
    ensures CalendarLongName in DefaultOptions && DefaultOptions[CalendarLongName].Flag?
    ensures CalendarShowCancelled in DefaultOptions && DefaultOptions[CalendarShowCancelled].Flag?
    ensures KeepLoggedIn in DefaultOptions && DefaultOptions[KeepLoggedIn].Flag?
    ensures GenerateJson in DefaultOptions && DefaultOptions[GenerateJson].Flag?
    ensures ExtendedTimetable in DefaultOptions && DefaultOptions[ExtendedTimetable].Flag?
    ensures CalendarShowRoomChange in DefaultOptions && DefaultOptions[CalendarShowRoomChange].Flag?
  {
  }

  /** The defaults of the four text options are text. */
  lemma DefaultTexts()
    ensures FilterMode in DefaultOptions && DefaultOptions[FilterMode].Text?
    ensures CalendarDescription in DefaultOptions && DefaultOptions[CalendarDescription].Text?
    ensures CalendarRoom in DefaultOptions && DefaultOptions[CalendarRoom].Text?
    ensures NotifyEntityId in DefaultOptions && DefaultOptions[NotifyEntityId].Text?
  {
  }

  /** The defaults of the four list options are lists, and that of
      `notify_data` a dictionary. */
  lemma DefaultCollections()
    ensures FilterSubjects in DefaultOptions && DefaultOptions[FilterSubjects].Items?
    ensures ExcludeData in DefaultOptions && DefaultOptions[ExcludeData].Items?
    ensures FilterDescription in DefaultOptions && DefaultOptions[FilterDescription].Items?
    ensures NotifyOptions in DefaultOptions && DefaultOptions[NotifyOptions].Items?
    ensures NotifyData in DefaultOptions && DefaultOptions[NotifyData].Dict?
  {
  }

  /** With the defaults, notifications are off, nothing is excluded, JSON is
      off, and the room mode "long name" is none of the location modes. */
  lemma DefaultConfig()
    ensures ReadConfig(DefaultOptions).Some?
    ensures var cfg := ReadConfig(DefaultOptions).value;
            && cfg.notifyEntityId == "" && cfg.notifyOptions == []
            && cfg.excludeData == [] && !cfg.generateJson && !cfg.keepLoggedIn
            && cfg.filterMode == ModeNone && cfg.calendarRoom == "long name"
            && !NotifyEnabled(cfg)
  {
    DefaultKindsReadable(DefaultOptions);
    DefaultValues();
  }

  /** The defaults the configuration facts above rest on. */
  lemma DefaultValues()
    ensures DefaultOptions[NotifyEntityId] == Text("") && DefaultOptions[NotifyOptions] == Items([])
    ensures DefaultOptions[ExcludeData] == Items([]) && DefaultOptions[GenerateJson] == Flag(false)
    ensures DefaultOptions[KeepLoggedIn] == Flag(false) && DefaultOptions[FilterMode] == Text(ModeNone)
    ensures DefaultOptions[CalendarRoom] == Text("long name")
  {
  }

  /** `get_timetable`'s end date: when the school year containing the start
      is known and ends before the requested end, the request stops at the
      school year's end. */
  function ClampEnd(end: int, schoolYearEnd: Option<int>): (r: int)
    ensures r <= end
    ensures schoolYearEnd.Some? ==> r <= schoolYearEnd.value
    ensures r == end || (schoolYearEnd.Some? && r == schoolYearEnd.value)
  {
    if schoolYearEnd.Some? && schoolYearEnd.value < end then schoolYearEnd.value else end
  }

  /** Clamping a clamped end again changes nothing, and a request that ends
      within the school year is not changed. */
  lemma ClampEndStable(end: int, schoolYearEnd: Option<int>)
    ensures ClampEnd(ClampEnd(end, schoolYearEnd), schoolYearEnd) == ClampEnd(end, schoolYearEnd)
    ensures schoolYearEnd.Some? && end <= schoolYearEnd.value ==> ClampEnd(end, schoolYearEnd) == end
    ensures schoolYearEnd.None? ==> ClampEnd(end, schoolYearEnd) == end
  {
  }
}
