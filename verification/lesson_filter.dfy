/** `WebUntis.check_lesson`: whether a lesson counts as taking place. */
module LessonFilter {
  import opened Seqs
  import opened Lessons

  /** Description fragment `f` occurs in the lesson's substitution text or in
      its information text. */
  predicate FragmentIn(f: string, l: Lesson)
  {
    IsSubstring(f, l.lsText) || IsSubstring(f, l.substText)
  }

  /** Some configured description fragment occurs in the lesson (the `for`
      loop over `filter_description`). */
  function AnyFragmentIn(fragments: seq<string>, l: Lesson): (r: bool)
    ensures r <==> exists f :: f in fragments && FragmentIn(f, l)
  {
    if |fragments| == 0 then false
    else if FragmentIn(fragments[0], l) then
      assert fragments[0] in fragments;
      true
    else
      assert fragments == [fragments[0]] + fragments[1..];
      AnyFragmentIn(fragments[1..], l)
  }

  /** Some subject's short name is in the configured subject list. */
  function AnySubjectListed(subjects: seq<Subject>, listed: seq<string>): (r: bool)
    ensures r <==> exists s :: s in subjects && s.name in listed
  {
    if |subjects| == 0 then false
    else if subjects[0].name in listed then true
    else
      assert subjects == [subjects[0]] + subjects[1..];
      AnySubjectListed(subjects[1..], listed)
  }

  /** The filter, stated as a conjunction of independent conditions rather
      than as an ordered series of early returns. */
  ghost predicate SatisfiesRules(l: Lesson, cfg: Config, ignoreCancelled: bool)
  {
    && (l.code != CancelledCode || ignoreCancelled)
    && |l.subjects| > 0
    && (forall f :: f in cfg.filterDescription ==> !FragmentIn(f, l))
    && (cfg.filterMode == ModeBlacklist ==> forall s :: s in l.subjects ==> s.name !in cfg.filterSubjects)
    && (cfg.filterMode == ModeWhitelist && |cfg.filterSubjects| > 0 ==>
          exists s :: s in l.subjects && s.name in cfg.filterSubjects)
  }

  /** The ordered, short-circuit filter: cancellation, missing subjects,
      description fragments, then the black- or whitelist over every subject. */
  function CheckLesson(l: Lesson, cfg: Config, ignoreCancelled: bool): (r: bool)
    ensures r ==> |l.subjects| > 0
    ensures r ==> l.code != CancelledCode || ignoreCancelled
  {
    if l.code == CancelledCode && !ignoreCancelled then false
    else if |l.subjects| == 0 then false
    else if AnyFragmentIn(cfg.filterDescription, l) then false
    else if cfg.filterMode == ModeBlacklist && AnySubjectListed(l.subjects, cfg.filterSubjects) then false
    else if cfg.filterMode == ModeWhitelist && |cfg.filterSubjects| > 0
         && !AnySubjectListed(l.subjects, cfg.filterSubjects) then false
    else true
  }

  /** The ordered filter admits exactly the lessons that meet every
      condition of the declarative one. */
  lemma CheckLessonMatchesRules(l: Lesson, cfg: Config, ignoreCancelled: bool)
    ensures CheckLesson(l, cfg, ignoreCancelled) <==> SatisfiesRules(l, cfg, ignoreCancelled)
  {
  }

  /** The lessons of `table` that pass the filter, in table order. */
  function PassingLessons(table: seq<Lesson>, cfg: Config, ignoreCancelled: bool): (r: seq<Lesson>)
    ensures |r| <= |table|
    ensures forall l :: l in r <==> l in table && CheckLesson(l, cfg, ignoreCancelled)
    ensures forall i :: 0 <= i < |r| ==> CheckLesson(r[i], cfg, ignoreCancelled)
    ensures forall l :: multiset(r)[l] == if CheckLesson(l, cfg, ignoreCancelled) then multiset(table)[l] else 0
    ensures PicksAt(r, table, PassingPositions(table, cfg, ignoreCancelled))
  {
    Filter(table, Passes(cfg, ignoreCancelled))
  }

  /** The positions in the table of the lessons that pass, ascending. */
  function PassingPositions(table: seq<Lesson>, cfg: Config, ignoreCancelled: bool): (idx: seq<int>)
    ensures forall i, j :: 0 <= i < j < |idx| ==> idx[i] < idx[j]
    ensures forall j :: 0 <= j < |table| ==> (j in idx <==> CheckLesson(table[j], cfg, ignoreCancelled))
  {
    FilterPositions(table, Passes(cfg, ignoreCancelled))
  }

  /** `check_lesson` as a test to filter with. */
  function Passes(cfg: Config, ignoreCancelled: bool): Lesson -> bool
  {
    l => CheckLesson(l, cfg, ignoreCancelled)
  }

  /** Allowing cancelled lessons never rejects a lesson the strict filter admits. */
  lemma IgnoringCancelledAdmitsMore(l: Lesson, cfg: Config)
    ensures CheckLesson(l, cfg, false) ==> CheckLesson(l, cfg, true)
    ensures l.code != CancelledCode ==> CheckLesson(l, cfg, false) == CheckLesson(l, cfg, true)
  {
  }

  /** With mode "None" (or any unknown mode), or an empty whitelist, and no
      description fragments, exactly the lessons that are not cancelled (or
      cancellation is ignored) and have a subject pass. */
  lemma NoSubjectRestriction(l: Lesson, cfg: Config, ignoreCancelled: bool)
    requires cfg.filterMode != ModeBlacklist
    requires cfg.filterMode != ModeWhitelist || |cfg.filterSubjects| == 0
    requires |cfg.filterDescription| == 0
    ensures CheckLesson(l, cfg, ignoreCancelled) <==>
              (l.code != CancelledCode || ignoreCancelled) && |l.subjects| > 0
  {
  }

  /** The black- and whitelist look at every subject of a lesson, not only the
      primary one: a lesson whose second subject is blacklisted is rejected,
      and one whose second subject is whitelisted passes. */
  lemma EverySubjectIsChecked(cfg: Config, l: Lesson)
    requires l.code != CancelledCode && |cfg.filterDescription| == 0
    requires |l.subjects| == 2 && l.subjects[0].name !in cfg.filterSubjects
    requires l.subjects[1].name in cfg.filterSubjects
    ensures cfg.filterMode == ModeBlacklist ==> !CheckLesson(l, cfg, false)
    ensures cfg.filterMode == ModeWhitelist ==> CheckLesson(l, cfg, false)
  {
    assert l.subjects[1] in l.subjects;
  }

  /** An empty description fragment occurs in every text, so configuring one
      rejects every lesson. */
  lemma EmptyFragmentRejectsAll(l: Lesson, cfg: Config, ignoreCancelled: bool)
    requires "" in cfg.filterDescription
    ensures !CheckLesson(l, cfg, ignoreCancelled)
  {
    assert IsSubstring("", l.lsText);
  }
}
