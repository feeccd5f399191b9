/** Sequence helpers shared by the model: substring search and `str.split`,
    and a stable insertion sort keyed by an integer. */
module Seqs {

  /** Python's `f in s` for strings: `f` occurs somewhere in `s`
      (the empty string occurs in every string). */
  predicate IsSubstring(f: string, s: string)
  {
    f <= s || (|s| > 0 && IsSubstring(f, s[1..]))
  }

  /** `f` occurs in `s` starting at offset `k`. */
  predicate OccursAt(f: string, s: string, k: int)
  {
    0 <= k <= |s| - |f| && f == s[k..k + |f|]
  }

  /** The recursive search agrees with "occurs at some offset". */
  lemma {:induction false} IsSubstringAt(f: string, s: string)
    ensures IsSubstring(f, s) <==> exists k :: OccursAt(f, s, k)
  {
    if IsSubstring(f, s) {
      SubstringOccurs(f, s);
    }
    if exists k :: OccursAt(f, s, k) {
      var k :| OccursAt(f, s, k);
      OccursSubstring(f, s, k);
    }
  }

  /** A fragment the search finds occurs at some offset. */
  lemma {:induction false} SubstringOccurs(f: string, s: string)
    requires IsSubstring(f, s)
    ensures exists k :: OccursAt(f, s, k)
  {
    if f <= s {
      assert OccursAt(f, s, 0);
    } else {
      SubstringOccurs(f, s[1..]);
      var k :| OccursAt(f, s[1..], k);
      assert s[1..][k..k + |f|] == s[k + 1..k + 1 + |f|];
      assert OccursAt(f, s, k + 1);
    }
  }

  /** A fragment occurring at offset `k` is found by the search. */
  lemma {:induction false} OccursSubstring(f: string, s: string, k: int)
    requires OccursAt(f, s, k)
    ensures IsSubstring(f, s)
    decreases k
  {
    if k == 0 {
      assert f <= s;
    } else {
      assert s[1..][k - 1..k - 1 + |f|] == s[k..k + |f|];
      OccursSubstring(f, s[1..], k - 1);
    }
  }

  /** Python's `s.split(sep)`: the pieces between separators, always at
      least one piece, empty pieces kept. */
  function Split(s: string, sep: char): (parts: seq<string>)
    ensures |parts| >= 1
    ensures forall i :: 0 <= i < |parts| ==> sep !in parts[i]
    ensures |parts| == 1 + multiset(s)[sep]
  {
    if |s| == 0 then [""]
    else
      var rest := Split(s[1..], sep);
      assert s == [s[0]] + s[1..];
      if s[0] == sep then [""] + rest
      else [[s[0]] + rest[0]] + rest[1..]
  }

  /** Python's `sep.join(parts)`. */
  function Join(parts: seq<string>, sep: char): string
    requires |parts| >= 1
  {
    if |parts| == 1 then parts[0] else parts[0] + [sep] + Join(parts[1..], sep)
  }

  /** Joining the pieces of a split gives back the original string. */
  lemma {:induction false} JoinSplit(s: string, sep: char)
    ensures Join(Split(s, sep), sep) == s
  {
    if |s| > 0 {
      JoinSplit(s[1..], sep);
      JoinSplitCons(s, sep);
    }
  }

  /** The step of `JoinSplit`: from the tail of `s` to `s`. */
  lemma JoinSplitCons(s: string, sep: char)
    requires |s| > 0 && Join(Split(s[1..], sep), sep) == s[1..]
    ensures Join(Split(s, sep), sep) == s
  {
    var rest := Split(s[1..], sep);
    assert s == [s[0]] + s[1..];
    if s[0] == sep {
      assert Split(s, sep) == [""] + rest;
      JoinAfterEmpty(rest, sep);
    } else {
      assert Split(s, sep) == [[s[0]] + rest[0]] + rest[1..];
      JoinExtendFirst(s[0], rest, sep);
    }
  }

  /** A leading empty piece joins as one separator in front. */
  lemma JoinAfterEmpty(parts: seq<string>, sep: char)
    requires |parts| >= 1
    ensures Join([""] + parts, sep) == [sep] + Join(parts, sep)
  {
    assert ([""] + parts)[1..] == parts;
  }

  /** Extending the first piece by a character extends the join by it. */
  lemma JoinExtendFirst(c: char, parts: seq<string>, sep: char)
    requires |parts| >= 1
    ensures Join([[c] + parts[0]] + parts[1..], sep) == [c] + Join(parts, sep)
  {
    var q := [[c] + parts[0]] + parts[1..];
    assert q[1..] == parts[1..];
    if |parts| > 1 {
      assert Join(parts, sep) == parts[0] + [sep] + Join(parts[1..], sep);
    }
  }

  /** Every element of `s` is ordered by `key`, ascending. */
  ghost predicate SortedBy<T>(s: seq<T>, key: T -> int)
  {
    forall i, j :: 0 <= i < j < |s| ==> key(s[i]) <= key(s[j])
  }

  /** The elements of `s` whose key is `v`, in their order in `s`. */
  function KeyRun<T>(s: seq<T>, key: T -> int, v: int): (r: seq<T>)
    ensures |r| <= |s|
  {
    if |s| == 0 then []
    else (if key(s[0]) == v then [s[0]] else []) + KeyRun(s[1..], key, v)
  }

  /** Puts `x` in front of the first element whose key is not smaller,
      so that `x` precedes every element with its own key. */
  function Insert<T>(x: T, s: seq<T>, key: T -> int): (r: seq<T>)
    ensures multiset(r) == multiset(s) + multiset{x}
    ensures forall v :: KeyRun(r, key, v) == (if key(x) == v then [x] else []) + KeyRun(s, key, v)
  {
    if |s| == 0 then
      KeyRunCons(x, [], key);
      [x]
    else if key(x) <= key(s[0]) then
      KeyRunCons(x, s, key);
      [x] + s
    else
      var tail := Insert(x, s[1..], key);
      InsertStep(x, s, key, tail);
      [s[0]] + tail
  }

  /** Inserting past the head: the contract of `Insert` for `s` from the
      one for its tail. */
  lemma InsertStep<T>(x: T, s: seq<T>, key: T -> int, tail: seq<T>)
    requires |s| > 0 && key(s[0]) < key(x)
    requires multiset(tail) == multiset(s[1..]) + multiset{x}
    requires forall v :: KeyRun(tail, key, v) == (if key(x) == v then [x] else []) + KeyRun(s[1..], key, v)
    ensures multiset([s[0]] + tail) == multiset(s) + multiset{x}
    ensures forall v :: KeyRun([s[0]] + tail, key, v) == (if key(x) == v then [x] else []) + KeyRun(s, key, v)
  {
    assert s == [s[0]] + s[1..];
    forall v
      ensures KeyRun([s[0]] + tail, key, v) == (if key(x) == v then [x] else []) + KeyRun(s, key, v)
    {
      InsertStepAt(x, s, key, tail, v);
    }
  }

  /** `InsertStep` for the run of one key value `v`. */
  lemma InsertStepAt<T>(x: T, s: seq<T>, key: T -> int, tail: seq<T>, v: int)
    requires |s| > 0 && key(s[0]) < key(x)
    requires KeyRun(tail, key, v) == (if key(x) == v then [x] else []) + KeyRun(s[1..], key, v)
    ensures KeyRun([s[0]] + tail, key, v) == (if key(x) == v then [x] else []) + KeyRun(s, key, v)
  {
    assert ([s[0]] + tail)[1..] == tail;
    if key(s[0]) == v {
      assert KeyRun([s[0]] + tail, key, v) == [s[0]] + KeyRun(tail, key, v);
      assert KeyRun(s, key, v) == [s[0]] + KeyRun(s[1..], key, v);
    } else {
      assert KeyRun([s[0]] + tail, key, v) == KeyRun(tail, key, v);
      assert KeyRun(s, key, v) == KeyRun(s[1..], key, v);
    }
  }

  /** The run of a key in a sequence with a head is the head, when it has
      that key, followed by the run in the rest. */
  lemma KeyRunCons<T>(h: T, t: seq<T>, key: T -> int)
    ensures forall v :: KeyRun([h] + t, key, v) == (if key(h) == v then [h] else []) + KeyRun(t, key, v)
  {
    assert ([h] + t)[1..] == t;
  }

  /** The elements of an insertion are the inserted one and those of `s`. */
  lemma InsertMembers<T>(x: T, s: seq<T>, key: T -> int, y: T)
    requires y in Insert(x, s, key)
    ensures y == x || y in s
  {
    assert y in multiset(Insert(x, s, key));
    if y != x {
      assert y in multiset(s);
    }
  }

  /** A sequence headed by an element no greater than any of the rest is
      sorted when the rest is. */
  lemma ConsSorted<T>(h: T, t: seq<T>, key: T -> int)
    requires SortedBy(t, key)
    requires forall y :: y in t ==> key(h) <= key(y)
    ensures SortedBy([h] + t, key)
  {
    var r := [h] + t;
    forall i, j | 0 <= i < j < |r|
      ensures key(r[i]) <= key(r[j])
    {
      assert r[j] == t[j - 1];
      if i > 0 {
        assert r[i] == t[i - 1];
      }
    }
  }

  lemma {:induction false} InsertSorted<T>(x: T, s: seq<T>, key: T -> int)
    requires SortedBy(s, key)
    ensures SortedBy(Insert(x, s, key), key)
  {
    if |s| == 0 {
    } else if key(x) <= key(s[0]) {
      SortedBounds(s, key);
      ConsSorted(x, s, key);
    } else {
      assert s == [s[0]] + s[1..];
      InsertSorted(x, s[1..], key);
      var tail := Insert(x, s[1..], key);
      SortedBounds(s, key);
      forall y | y in tail
        ensures key(s[0]) <= key(y)
      {
        InsertMembers(x, s[1..], key, y);
        if y != x {
          assert y in s;
        }
      }
      ConsSorted(s[0], tail, key);
    }
  }

  /** Stable insertion sort by an integer key, ascending: the result is a
      permutation of `s`, is ordered by `key`, and keeps the relative order
      of the elements that share a key (as Python's `sorted` does). */
  function SortBy<T>(s: seq<T>, key: T -> int): (r: seq<T>)
    ensures |r| == |s|
    ensures multiset(r) == multiset(s)
    ensures SortedBy(r, key)
    ensures forall v :: KeyRun(r, key, v) == KeyRun(s, key, v)
  {
    if |s| == 0 then []
    else
      var rest := SortBy(s[1..], key);
      InsertSorted(s[0], rest, key);
      SortStep(s, key, rest);
      Insert(s[0], rest, key)
  }

  /** Inserting the head into the sorted tail keeps the elements and the
      runs of `s`. */
  lemma SortStep<T>(s: seq<T>, key: T -> int, rest: seq<T>)
    requires |s| > 0 && multiset(rest) == multiset(s[1..])
    requires forall v :: KeyRun(rest, key, v) == KeyRun(s[1..], key, v)
    ensures |Insert(s[0], rest, key)| == |s|
    ensures multiset(Insert(s[0], rest, key)) == multiset(s)
    ensures forall v :: KeyRun(Insert(s[0], rest, key), key, v) == KeyRun(s, key, v)
  {
    assert s == [s[0]] + s[1..];
    KeyRunCons(s[0], s[1..], key);
    assert |Insert(s[0], rest, key)| == |multiset(Insert(s[0], rest, key))|;
  }

  /** Sorting keeps exactly the elements of the input. */
  lemma SortByMembers<T>(s: seq<T>, key: T -> int)
    ensures forall x :: x in SortBy(s, key) <==> x in s
  {
    var r := SortBy(s, key);
    forall x
      ensures x in r <==> x in s
    {
      assert x in r <==> x in multiset(r);
      assert x in s <==> x in multiset(s);
    }
  }

  /** The first element of a sorted permutation has the least key, and
      the last one the greatest. */
  lemma SortByEnds<T>(s: seq<T>, key: T -> int)
    requires |s| > 0
    ensures SortBy(s, key)[0] in s
    ensures SortBy(s, key)[|s| - 1] in s
    ensures forall x :: x in s ==> key(SortBy(s, key)[0]) <= key(x) <= key(SortBy(s, key)[|s| - 1])
  {
    var r := SortBy(s, key);
    assert r[0] in multiset(r) && r[|s| - 1] in multiset(r);
    SortedBounds(r, key);
    forall x | x in s
      ensures key(r[0]) <= key(x) <= key(r[|s| - 1])
    {
      assert x in multiset(r);
    }
  }

  /** In a sorted sequence every element lies between the first and the last. */
  lemma SortedBounds<T>(s: seq<T>, key: T -> int)
    requires |s| > 0 && SortedBy(s, key)
    ensures forall y :: y in s ==> key(s[0]) <= key(y) <= key(s[|s| - 1])
  {
    forall y | y in s
      ensures key(s[0]) <= key(y) <= key(s[|s| - 1])
    {
      var j :| 0 <= j < |s| && s[j] == y;
    }
  }

  /** Ordered by `key`, and by `rank` among elements with equal keys. */
  ghost predicate LexSortedBy<T>(s: seq<T>, key: T -> int, rank: T -> int)
  {
    forall i, j :: 0 <= i < j < |s| ==>
      key(s[i]) < key(s[j]) || (key(s[i]) == key(s[j]) && rank(s[i]) < rank(s[j]))
  }

  /** A sequence headed by an element that precedes every later one in the
      order by `key` then `rank` is so ordered when the rest is. */
  lemma ConsLexSorted<T>(h: T, t: seq<T>, key: T -> int, rank: T -> int)
    requires LexSortedBy(t, key, rank)
    requires forall y :: y in t ==> key(h) < key(y) || (key(h) == key(y) && rank(h) < rank(y))
    ensures LexSortedBy([h] + t, key, rank)
  {
    var r := [h] + t;
    forall i, j | 0 <= i < j < |r|
      ensures key(r[i]) < key(r[j]) || (key(r[i]) == key(r[j]) && rank(r[i]) < rank(r[j]))
    {
      assert r[j] == t[j - 1];
      if i > 0 {
        assert r[i] == t[i - 1];
      }
    }
  }

  /** In a sequence ordered by `key` then `rank`, the first element precedes
      every other one. */
  lemma LexHeadLeast<T>(s: seq<T>, key: T -> int, rank: T -> int)
    requires |s| > 0 && LexSortedBy(s, key, rank)
    ensures forall y :: y in s[1..] ==> key(s[0]) < key(y) || (key(s[0]) == key(y) && rank(s[0]) < rank(y))
  {
    forall y | y in s[1..]
      ensures key(s[0]) < key(y) || (key(s[0]) == key(y) && rank(s[0]) < rank(y))
    {
      var j :| 0 <= j < |s[1..]| && s[1..][j] == y;
      assert s[j + 1] == y;
    }
  }

  lemma {:induction false} InsertLexSorted<T>(x: T, s: seq<T>, key: T -> int, rank: T -> int)
    requires LexSortedBy(s, key, rank)
    requires forall y :: y in s ==> rank(x) < rank(y)
    ensures LexSortedBy(Insert(x, s, key), key, rank)
  {
    if |s| == 0 {
      ConsLexSorted(x, [], key, rank);
    } else if key(x) <= key(s[0]) {
      SortedBounds(s, key) by {
        LexImpliesSorted(s, key, rank);
      }
      ConsLexSorted(x, s, key, rank);
    } else {
      assert s == [s[0]] + s[1..];
      InsertLexSorted(x, s[1..], key, rank);
      var tail := Insert(x, s[1..], key);
      LexHeadLeast(s, key, rank);
      forall y | y in tail
        ensures key(s[0]) < key(y) || (key(s[0]) == key(y) && rank(s[0]) < rank(y))
      {
        InsertMembers(x, s[1..], key, y);
      }
      ConsLexSorted(s[0], tail, key, rank);
    }
  }

  /** Ordered by `key` then `rank` implies ordered by `key`. */
  lemma LexImpliesSorted<T>(s: seq<T>, key: T -> int, rank: T -> int)
    requires LexSortedBy(s, key, rank)
    ensures SortedBy(s, key)
  {
  }

  /** When the input is strictly increasing in `rank`, the stable sort
      breaks ties between equal keys by `rank`. */
  lemma {:induction false} SortByTiesByRank<T>(s: seq<T>, key: T -> int, rank: T -> int)
    requires forall i, j :: 0 <= i < j < |s| ==> rank(s[i]) < rank(s[j])
    ensures LexSortedBy(SortBy(s, key), key, rank)
  {
    if |s| > 0 {
      var rest := SortBy(s[1..], key);
      SortByTiesByRank(s[1..], key, rank);
      forall y | y in rest
        ensures rank(s[0]) < rank(y)
      {
        assert y in multiset(rest);
        assert y in multiset(s[1..]);
        var k :| 0 <= k < |s[1..]| && s[1..][k] == y;
        assert s[k + 1] == y;
      }
      InsertLexSorted(s[0], rest, key, rank);
    }
  }

  /** The index of the first occurrence of `x` in `s`, or `|s|` when absent. */
  function Position<T(==)>(s: seq<T>, x: T): (r: nat)
    ensures r <= |s|
    ensures r < |s| <==> x in s
    ensures r < |s| ==> s[r] == x
    ensures forall j :: 0 <= j < r ==> s[j] != x
  {
    if |s| == 0 then 0
    else if s[0] == x then 0
    else 1 + Position(s[1..], x)
  }

  /** Appending to a sequence leaves the first occurrence of an element
      already there where it was, and puts a new one at the end. */
  lemma PositionAppend<T>(s: seq<T>, y: T, x: T)
    ensures x in s ==> Position(s + [y], x) == Position(s, x)
    ensures x !in s && x == y ==> Position(s + [y], x) == |s|
  {
    var p := Position(s + [y], x);
    if x in s {
      var q := Position(s, x);
      assert (s + [y])[q] == x;
    } else if x == y {
      assert (s + [y])[|s|] == x;
    }
  }

  function Identity(x: int): int { x }

  /** The elements of `s` that satisfy `p`, in the order they have in `s`. */
  function Filter<T(!new)>(s: seq<T>, p: T -> bool): (r: seq<T>)
    ensures |r| <= |s|
    ensures forall x :: x in r <==> x in s && p(x)
    ensures forall i :: 0 <= i < |r| ==> p(r[i])
    ensures forall x :: multiset(r)[x] == if p(x) then multiset(s)[x] else 0
  {
    if |s| == 0 then []
    else
      assert s == [s[0]] + s[1..];
      (if p(s[0]) then [s[0]] else []) + Filter(s[1..], p)
  }

  /** `r` is `s` read at the strictly increasing positions `idx`: a
      subsequence of `s` that keeps the order of its elements. */
  ghost predicate PicksAt<T>(r: seq<T>, s: seq<T>, idx: seq<int>)
  {
    && |idx| == |r|
    && (forall i :: 0 <= i < |idx| ==> 0 <= idx[i] < |s| && r[i] == s[idx[i]])
    && (forall i, j :: 0 <= i < j < |idx| ==> idx[i] < idx[j])
  }

  /** The positions in `s` of the elements that satisfy `p`, ascending;
      `Filter(s, p)` reads `s` at exactly these positions. */
  function FilterPositions<T(!new)>(s: seq<T>, p: T -> bool): (idx: seq<int>)
    ensures PicksAt(Filter(s, p), s, idx)
    ensures forall j :: 0 <= j < |s| ==> (j in idx <==> p(s[j]))
  {
    if |s| == 0 then []
    else
      var rest := FilterPositions(s[1..], p);
      ShiftPicks(Filter(s[1..], p), s, rest);
      PositionsShift(s, p, rest);
      if p(s[0]) then
        PositionsPass(s, p, rest);
        [0] + Shift(rest)
      else
        PositionsSkip(s, p, rest);
        Shift(rest)
  }

  /** Every position moved one place on. */
  function Shift(idx: seq<int>): (r: seq<int>)
    ensures |r| == |idx|
    ensures forall i :: 0 <= i < |idx| ==> r[i] == idx[i] + 1
    ensures forall j :: j in r <==> j - 1 in idx
  {
    if |idx| == 0 then [] else [idx[0] + 1] + Shift(idx[1..])
  }

  /** With a passing head, its position 0 goes in front of the tail's
      shifted positions. */
  lemma PositionsPass<T(!new)>(s: seq<T>, p: T -> bool, rest: seq<int>)
    requires |s| > 0 && p(s[0])
    requires PicksAt([s[0]] + Filter(s[1..], p), s, [0] + Shift(rest))
    requires forall j :: 1 <= j < |s| ==> (j in Shift(rest) <==> p(s[j]))
    ensures PicksAt(Filter(s, p), s, [0] + Shift(rest))
    ensures forall j :: 0 <= j < |s| ==> (j in [0] + Shift(rest) <==> p(s[j]))
  {
    assert Filter(s, p) == [s[0]] + Filter(s[1..], p);
  }

  /** With a failing head, the positions are the tail's, shifted. */
  lemma PositionsSkip<T(!new)>(s: seq<T>, p: T -> bool, rest: seq<int>)
    requires |s| > 0 && !p(s[0])
    requires PicksAt(Filter(s[1..], p), s, Shift(rest))
    requires forall j :: 1 <= j < |s| ==> (j in Shift(rest) <==> p(s[j]))
    requires 0 !in Shift(rest)
    ensures PicksAt(Filter(s, p), s, Shift(rest))
    ensures forall j :: 0 <= j < |s| ==> (j in Shift(rest) <==> p(s[j]))
  {
    assert Filter(s, p) == Filter(s[1..], p);
  }

  /** Shifting the positions of the tail's passing elements gives those of
      `s` beyond its head. */
  lemma PositionsShift<T>(s: seq<T>, p: T -> bool, rest: seq<int>)
    requires |s| > 0 && forall i :: 0 <= i < |rest| ==> rest[i] >= 0
    requires forall j :: 0 <= j < |s| - 1 ==> (j in rest <==> p(s[1..][j]))
    ensures forall j :: 1 <= j < |s| ==> (j in Shift(rest) <==> p(s[j]))
    ensures 0 !in Shift(rest)
  {
    forall j | 1 <= j < |s|
      ensures j in Shift(rest) <==> p(s[j])
    {
      assert j in Shift(rest) <==> j - 1 in rest;
      assert s[j] == s[1..][j - 1];
    }
  }

  /** A subsequence of the tail of `s` is one of `s` at shifted positions,
      and it stays one when the head of `s` is put in front of it. */
  lemma ShiftPicks<T>(r: seq<T>, s: seq<T>, idx: seq<int>)
    requires |s| > 0 && PicksAt(r, s[1..], idx)
    ensures PicksAt(r, s, Shift(idx))
    ensures PicksAt([s[0]] + r, s, [0] + Shift(idx))
  {
    ShiftTail(r, s, idx);
    ConsPicks(r, s, Shift(idx));
  }

  /** A subsequence of the tail of `s` is one of `s` at shifted positions. */
  lemma ShiftTail<T>(r: seq<T>, s: seq<T>, idx: seq<int>)
    requires |s| > 0 && PicksAt(r, s[1..], idx)
    ensures PicksAt(r, s, Shift(idx))
    ensures forall i :: 0 <= i < |idx| ==> Shift(idx)[i] > 0
  {
    var sh := Shift(idx);
    forall i | 0 <= i < |sh|
      ensures 0 < sh[i] < |s| && r[i] == s[sh[i]]
    {
      assert r[i] == s[1..][idx[i]];
    }
  }

  /** The head of `s` in front of a subsequence that avoids position 0. */
  lemma ConsPicks<T>(r: seq<T>, s: seq<T>, idx: seq<int>)
    requires |s| > 0 && PicksAt(r, s, idx)
    requires forall i :: 0 <= i < |idx| ==> idx[i] > 0
    ensures PicksAt([s[0]] + r, s, [0] + idx)
  {
    var idx' := [0] + idx;
    var r' := [s[0]] + r;
    forall i | 0 <= i < |idx'|
      ensures 0 <= idx'[i] < |s| && r'[i] == s[idx'[i]]
    {
      if i > 0 {
        assert idx'[i] == idx[i - 1] && r'[i] == r[i - 1];
      }
    }
    forall i, j | 0 <= i < j < |idx'|
      ensures idx'[i] < idx'[j]
    {
      assert idx'[j] == idx[j - 1];
      if i > 0 {
        assert idx'[i] == idx[i - 1];
      }
    }
  }

  /** The test `p` narrowed to the elements whose key is `v`. */
  function KeyedAt<T>(p: T -> bool, key: T -> int, v: int): T -> bool
  {
    x => p(x) && key(x) == v
  }

  /** The index of the first element of `s` that satisfies `q`; `|s|` when
      there is none. */
  function FirstWhere<T>(s: seq<T>, q: T -> bool): (k: nat)
    ensures k <= |s|
    ensures k < |s| ==> q(s[k])
    ensures forall j :: 0 <= j < k ==> !q(s[j])
  {
    if |s| == 0 then 0
    else if q(s[0]) then 0
    else 1 + FirstWhere(s[1..], q)
  }

  /** The first filtered element with key `v` is the first element of `s`
      that passes the filter and has key `v`. */
  lemma {:induction false} FilterRunHead<T(!new)>(s: seq<T>, p: T -> bool, key: T -> int, v: int)
    requires |KeyRun(Filter(s, p), key, v)| > 0
    ensures FirstWhere(s, KeyedAt(p, key, v)) < |s|
    ensures s[FirstWhere(s, KeyedAt(p, key, v))] == KeyRun(Filter(s, p), key, v)[0]
  {
    var q := KeyedAt(p, key, v);
    assert |s| > 0;
    var f := Filter(s, p);
    var rest := Filter(s[1..], p);
    if p(s[0]) && key(s[0]) == v {
      assert q(s[0]) && FirstWhere(s, q) == 0;
      assert f == [s[0]] + rest;
      assert KeyRun(f, key, v) == [s[0]] + KeyRun(rest, key, v);
    } else {
      assert !q(s[0]);
      FilterSkipsHead(s, p, key, v);
      FilterRunHead(s[1..], p, key, v);
      var k := FirstWhere(s[1..], q);
      assert FirstWhere(s, q) == 1 + k;
      assert s[1 + k] == s[1..][k];
    }
  }

  /** A head that fails the filter or has another key leaves the run of
      `v` in the filter to the tail. */
  lemma FilterSkipsHead<T(!new)>(s: seq<T>, p: T -> bool, key: T -> int, v: int)
    requires |s| > 0 && !(p(s[0]) && key(s[0]) == v)
    ensures KeyRun(Filter(s, p), key, v) == KeyRun(Filter(s[1..], p), key, v)
  {
    var f := Filter(s, p);
    var rest := Filter(s[1..], p);
    if p(s[0]) {
      assert f == [s[0]] + rest;
      assert f[0] == s[0] && f[1..] == rest;
    } else {
      assert f == rest;
    }
  }

  /** The first element of the sorted filter is the first element of `s`
      that passes the filter and has the least key. */
  lemma SortedFilterHead<T(!new)>(s: seq<T>, p: T -> bool, key: T -> int)
    requires |Filter(s, p)| > 0
    ensures var m := key(SortBy(Filter(s, p), key)[0]);
            FirstWhere(s, KeyedAt(p, key, m)) < |s| &&
            s[FirstWhere(s, KeyedAt(p, key, m))] == SortBy(Filter(s, p), key)[0]
  {
    SortedHeadRun(Filter(s, p), key);
    FilterRunHead(s, p, key, key(SortBy(Filter(s, p), key)[0]));
  }

  /** The head of the sorted sequence is the first element of `s` with the
      least key, since the sort is stable. */
  lemma SortedHeadRun<T>(s: seq<T>, key: T -> int)
    requires |s| > 0
    ensures var m := key(SortBy(s, key)[0]);
            |KeyRun(s, key, m)| > 0 && KeyRun(s, key, m)[0] == SortBy(s, key)[0]
  {
    var sorted := SortBy(s, key);
    SortByEnds(s, key);
    var m := key(sorted[0]);
    assert sorted == [sorted[0]] + sorted[1..];
    assert KeyRun(sorted, key, m)[0] == sorted[0];
    assert KeyRun(s, key, m) == KeyRun(sorted, key, m);
  }
}
