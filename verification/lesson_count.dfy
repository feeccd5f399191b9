/** `_count_lessons`: how many lessons each subject has in a time range,
    most frequent first. */
module LessonCount {
  import opened Seqs
  import opened Lessons
  import opened LessonFilter

  /** Whether `_count_lessons` counts the lesson: it has a subject, passes
      the filter when filtering is on, and is not cancelled unless cancelled
      lessons are counted too. */
  predicate Counted(l: Lesson, cfg: Config, filterOn: bool, countCancelled: bool)
  {
    && |l.subjects| > 0
    && (!filterOn || CheckLesson(l, cfg, countCancelled))
    && (countCancelled || l.code != CancelledCode)
  }

  /** The lessons `_count_lessons` counts, in table order. */
  function CountedLessons(table: seq<Lesson>, cfg: Config, filterOn: bool, countCancelled: bool): (r: seq<Lesson>)
    ensures forall i :: 0 <= i < |r| ==> |r[i].subjects| > 0 && Counted(r[i], cfg, filterOn, countCancelled)
    ensures forall l :: multiset(r)[l] ==
                        if Counted(l, cfg, filterOn, countCancelled) then multiset(table)[l] else 0
    ensures PicksAt(r, table, FilterPositions(table, CountedTest(cfg, filterOn, countCancelled)))
  {
    Filter(table, CountedTest(cfg, filterOn, countCancelled))
  }

  /** `Counted` as a test to filter with. */
  function CountedTest(cfg: Config, filterOn: bool, countCancelled: bool): Lesson -> bool
  {
    l => Counted(l, cfg, filterOn, countCancelled)
  }

  /** The primary subject's long name of every counted lesson, in table
      order: one name per counted lesson, so a subject occurs as often as
      it has counted lessons. */
  function CountedNames(table: seq<Lesson>, cfg: Config, filterOn: bool, countCancelled: bool): (r: seq<string>)
    ensures var counted := CountedLessons(table, cfg, filterOn, countCancelled);
            |r| == |counted| && forall i :: 0 <= i < |r| ==> r[i] == counted[i].subjects[0].longName
  {
    var counted := CountedLessons(table, cfg, filterOn, countCancelled);
    seq(|counted|, i requires 0 <= i < |counted| => counted[i].subjects[0].longName)
  }

  /** A histogram entry: a key (a subject's long name) and its count. */
  type Entry<T> = (T, nat)

  ghost predicate DistinctNames<T>(t: seq<Entry<T>>)
  {
    forall i, j :: 0 <= i < j < |t| ==> t[i].0 != t[j].0
  }

  /** One step of the counting loop: increment the entry of `n`, or append a
      new entry with count 1 (a dictionary keeps insertion order). */
  function Bump<T(==)>(t: seq<Entry<T>>, n: T): (r: seq<Entry<T>>)
    requires DistinctNames(t)
    ensures (forall i :: 0 <= i < |t| ==> t[i].0 != n) ==> r == t + [(n, 1)]
    ensures forall i :: 0 <= i < |t| && t[i].0 == n ==> r == t[i := (n, t[i].1 + 1)]
  {
    if |t| == 0 then [(n, 1)]
    else if t[0].0 == n then [(n, t[0].1 + 1)] + t[1..]
    else
      assert DistinctNames(t[1..]) by {
        forall i, j | 0 <= i < j < |t[1..]| ensures t[1..][i].0 != t[1..][j].0 {
          assert t[i + 1].0 != t[j + 1].0;
        }
      }
      var rest := Bump(t[1..], n);
      assert forall i :: 1 <= i < |t| && t[i].0 == n ==> rest == t[1..][i - 1 := (n, t[i].1 + 1)];
      [t[0]] + rest
  }

  /** `t` is the first-seen-order histogram of `names`: one entry per
      distinct name, holding the number of times it occurs. */
  ghost predicate IsTally<T>(t: seq<Entry<T>>, names: seq<T>)
  {
    && DistinctNames(t)
    && (forall i :: 0 <= i < |t| ==> t[i].0 in names && t[i].1 == multiset(names)[t[i].0])
    && (forall n :: n in names ==> exists i :: 0 <= i < |t| && t[i].0 == n)
    && (forall i, j :: 0 <= i < j < |t| ==> Position(names, t[i].0) < Position(names, t[j].0))
  }

  /** One step of the counting loop keeps the histogram exact. */
  lemma TallyStep<T>(prefix: seq<T>, n: T, t: seq<Entry<T>>)
    requires IsTally(t, prefix)
    ensures IsTally(Bump(t, n), prefix + [n])
  {
    var names := prefix + [n];
    assert multiset(names) == multiset(prefix) + multiset{n};
    if n in prefix {
      var i :| 0 <= i < |t| && t[i].0 == n;
      TallyIncrement(prefix, n, t, i);
    } else {
      TallyAppend(prefix, n, t);
    }
  }

  lemma TallyIncrement<T>(prefix: seq<T>, n: T, t: seq<Entry<T>>, i: int)
    requires IsTally(t, prefix)
    requires 0 <= i < |t| && t[i].0 == n
    requires multiset(prefix + [n]) == multiset(prefix) + multiset{n}
    ensures IsTally(Bump(t, n), prefix + [n])
  {
    var r := t[i := (n, t[i].1 + 1)];
    assert Bump(t, n) == r;
    IncrementCounts(prefix, n, t, i);
    IncrementCovers(prefix, n, t, i);
    IncrementOrder(prefix, n, t, i);
    assert DistinctNames(r);
  }

  lemma IncrementCounts<T>(prefix: seq<T>, n: T, t: seq<Entry<T>>, i: int)
    requires IsTally(t, prefix)
    requires 0 <= i < |t| && t[i].0 == n
    requires multiset(prefix + [n]) == multiset(prefix) + multiset{n}
    ensures var r := t[i := (n, t[i].1 + 1)];
            forall j :: 0 <= j < |r| ==> r[j].0 in prefix + [n] && r[j].1 == multiset(prefix + [n])[r[j].0]
  {
    var r := t[i := (n, t[i].1 + 1)];
    forall j | 0 <= j < |r|
      ensures r[j].0 in prefix + [n] && r[j].1 == multiset(prefix + [n])[r[j].0]
    {
      if j != i {
        assert t[j].0 != n;
      }
    }
  }

  lemma IncrementCovers<T>(prefix: seq<T>, n: T, t: seq<Entry<T>>, i: int)
    requires IsTally(t, prefix)
    requires 0 <= i < |t| && t[i].0 == n
    ensures var r := t[i := (n, t[i].1 + 1)];
            forall x :: x in prefix + [n] ==> exists j :: 0 <= j < |r| && r[j].0 == x
  {
    var r := t[i := (n, t[i].1 + 1)];
    forall x | x in prefix + [n]
      ensures exists j :: 0 <= j < |r| && r[j].0 == x
    {
      if x != n {
        assert x in prefix;
        var j :| 0 <= j < |t| && t[j].0 == x;
        assert r[j].0 == x;
      } else {
        assert r[i].0 == x;
      }
    }
  }

  lemma IncrementOrder<T>(prefix: seq<T>, n: T, t: seq<Entry<T>>, i: int)
    requires IsTally(t, prefix)
    requires 0 <= i < |t| && t[i].0 == n
    ensures var r := t[i := (n, t[i].1 + 1)];
            forall j, k :: 0 <= j < k < |r| ==> Position(prefix + [n], r[j].0) < Position(prefix + [n], r[k].0)
  {
    var r := t[i := (n, t[i].1 + 1)];
    forall j, k | 0 <= j < k < |r|
      ensures Position(prefix + [n], r[j].0) < Position(prefix + [n], r[k].0)
    {
      assert r[j].0 == t[j].0 && r[k].0 == t[k].0;
      PositionAppend(prefix, n, t[j].0);
      PositionAppend(prefix, n, t[k].0);
    }
  }

  lemma TallyAppend<T>(prefix: seq<T>, n: T, t: seq<Entry<T>>)
    requires IsTally(t, prefix)
    requires n !in prefix
    requires multiset(prefix + [n]) == multiset(prefix) + multiset{n}
    ensures IsTally(Bump(t, n), prefix + [n])
  {
    assert forall j :: 0 <= j < |t| ==> t[j].0 != n;
    var r := t + [(n, 1)];
    assert Bump(t, n) == r;
    AppendCounts(prefix, n, t);
    AppendCovers(prefix, n, t);
    AppendOrder(prefix, n, t);
    assert DistinctNames(r);
  }

  lemma AppendCounts<T>(prefix: seq<T>, n: T, t: seq<Entry<T>>)
    requires IsTally(t, prefix)
    requires n !in prefix
    requires multiset(prefix + [n]) == multiset(prefix) + multiset{n}
    ensures var r := t + [(n, 1)];
            forall j :: 0 <= j < |r| ==> r[j].0 in prefix + [n] && r[j].1 == multiset(prefix + [n])[r[j].0]
  {
    var r := t + [(n, 1)];
    forall j | 0 <= j < |r|
      ensures r[j].0 in prefix + [n] && r[j].1 == multiset(prefix + [n])[r[j].0]
    {
      if j < |t| {
        assert r[j] == t[j];
        assert t[j].0 != n;
      }
    }
  }

  lemma AppendCovers<T>(prefix: seq<T>, n: T, t: seq<Entry<T>>)
    requires IsTally(t, prefix)
    ensures var r := t + [(n, 1)];
            forall x :: x in prefix + [n] ==> exists j :: 0 <= j < |r| && r[j].0 == x
  {
    var r := t + [(n, 1)];
    forall x | x in prefix + [n]
      ensures exists j :: 0 <= j < |r| && r[j].0 == x
    {
      if x != n {
        assert x in prefix;
        var j :| 0 <= j < |t| && t[j].0 == x;
        assert r[j].0 == x;
      } else {
        assert r[|t|].0 == x;
      }
    }
  }

  lemma AppendOrder<T>(prefix: seq<T>, n: T, t: seq<Entry<T>>)
    requires IsTally(t, prefix)
    requires n !in prefix
    ensures var r := t + [(n, 1)];
            forall j, k :: 0 <= j < k < |r| ==> Position(prefix + [n], r[j].0) < Position(prefix + [n], r[k].0)
  {
    var r := t + [(n, 1)];
    PositionAppend(prefix, n, n);
    forall j, k | 0 <= j < k < |r|
      ensures Position(prefix + [n], r[j].0) < Position(prefix + [n], r[k].0)
    {
      assert r[j] == t[j];
      PositionAppend(prefix, n, t[j].0);
      if k < |t| {
        assert r[k] == t[k];
        PositionAppend(prefix, n, t[k].0);
      }
    }
  }

  /** The counting loop over `names`. */
  function Tally<T(==)>(names: seq<T>): (r: seq<Entry<T>>)
    ensures IsTally(r, names)
  {
    if |names| == 0 then []
    else
      var prefix := names[..|names| - 1];
      var n := names[|names| - 1];
      assert names == prefix + [n];
      var t := Tally(prefix);
      TallyStep(prefix, n, t);
      Bump(t, n)
  }

  /** An entry's count, negated so that an ascending sort puts the most
      frequent subject first. */
  function NegCount<T>(e: Entry<T>): int { 0 - e.1 as int }

  /** Ordered by count, most frequent first, ties in order of first
      occurrence in `names`. */
  ghost predicate CountOrdered<T>(r: seq<Entry<T>>, names: seq<T>)
  {
    forall i, j :: 0 <= i < j < |r| ==>
      r[i].1 > r[j].1 || (r[i].1 == r[j].1 && Position(names, r[i].0) < Position(names, r[j].0))
  }

  /** `_count_lessons`: one entry per counted subject long name with the
      number of counted lessons that have it as primary subject; entries are
      ordered by count, most frequent first, and entries with equal counts
      keep the order in which their subject was first seen. */
  function CountLessons(table: seq<Lesson>, cfg: Config, filterOn: bool, countCancelled: bool): (r: seq<Entry<string>>)
    ensures IsTallyOf(r, CountedNames(table, cfg, filterOn, countCancelled))
    ensures CountOrdered(r, CountedNames(table, cfg, filterOn, countCancelled))
    ensures DistinctNames(r)
  {
    var names := CountedNames(table, cfg, filterOn, countCancelled);
    var t := Tally(names);
    SortedTally(t, names);
    SortBy(t, NegCount<string>)
  }

  /** Every entry of `r` is exact for `names`, and every name has an entry. */
  ghost predicate IsTallyOf<T>(r: seq<Entry<T>>, names: seq<T>)
  {
    && (forall i :: 0 <= i < |r| ==> r[i].0 in names && r[i].1 == multiset(names)[r[i].0])
    && Covers(r, names)
  }

  /** Every name has an entry in `r`. */
  ghost predicate Covers<T>(r: seq<Entry<T>>, names: seq<T>)
  {
    forall n :: n in names ==> exists i :: 0 <= i < |r| && r[i].0 == n
  }

  /** Sorting the histogram by count keeps it exact, orders it by count and
      then by first occurrence, and so keeps the names distinct. */
  lemma SortedTally<T>(t: seq<Entry<T>>, names: seq<T>)
    requires IsTally(t, names)
    ensures IsTallyOf(SortBy(t, NegCount<T>), names)
    ensures CountOrdered(SortBy(t, NegCount<T>), names)
    ensures DistinctNames(SortBy(t, NegCount<T>))
  {
    SortedExact(t, names);
    SortedOrder(t, names);
  }

  lemma SortedExact<T>(t: seq<Entry<T>>, names: seq<T>)
    requires IsTally(t, names)
    ensures IsTallyOf(SortBy(t, NegCount<T>), names)
  {
    SortedCounts(t, names);
    SortedCovers(t, names);
  }

  lemma SortedCounts<T>(t: seq<Entry<T>>, names: seq<T>)
    requires IsTally(t, names)
    ensures var r := SortBy(t, NegCount<T>);
            forall i :: 0 <= i < |r| ==> r[i].0 in names && r[i].1 == multiset(names)[r[i].0]
  {
    var r := SortBy(t, NegCount<T>);
    forall i | 0 <= i < |r|
      ensures r[i].0 in names && r[i].1 == multiset(names)[r[i].0]
    {
      assert r[i] in multiset(t);
      var k :| 0 <= k < |t| && t[k] == r[i];
    }
  }

  lemma SortedCovers<T>(t: seq<Entry<T>>, names: seq<T>)
    requires IsTally(t, names)
    ensures Covers(SortBy(t, NegCount<T>), names)
  {
    var r := SortBy(t, NegCount<T>);
    forall n | n in names
      ensures exists i :: 0 <= i < |r| && r[i].0 == n
    {
      var k :| 0 <= k < |t| && t[k].0 == n;
      assert t[k] in multiset(r);
      var i :| 0 <= i < |r| && r[i] == t[k];
      assert r[i].0 == n;
    }
  }

  lemma SortedOrder<T>(t: seq<Entry<T>>, names: seq<T>)
    requires IsTally(t, names)
    ensures CountOrdered(SortBy(t, NegCount<T>), names)
  {
    var r := SortBy(t, NegCount<T>);
    var rank := (e: Entry<T>) => Position(names, e.0);
    SortByTiesByRank(t, NegCount, rank);
    forall i, j | 0 <= i < j < |r|
      ensures r[i].1 > r[j].1 || (r[i].1 == r[j].1 && Position(names, r[i].0) < Position(names, r[j].0))
    {
      assert NegCount(r[i]) < NegCount(r[j]) || (NegCount(r[i]) == NegCount(r[j]) && rank(r[i]) < rank(r[j]));
    }
  }
}
