/** The slot numbers of the timetable (`_create_datetime_string_to_slot_number_map` in
    `pyconjp_domains/factories.py`, copied as `create_date_string_to_slot_number_map` in
    `pyconjp_domains/core.py`): the start times are grouped by day, each day's start times are
    sorted, and the n-th start time of a day is numbered n.

    The grouping and numbering are stated for any way `dateOf` of reading the day of a start
    time (`None` where reading raises); the map of the code is the one for `DateOf`, which is
    `strptime(...).date()`. */
module SlotNumbering {
  import opened Wrappers
  import opened Strings
  import opened Sequences
  import opened Timestamps

  /** `date_from_string`: the date of a canonical timestamp; `None` where `strptime` raises
      `ValueError`. */
  function DateOf(s: string): (r: Option<Date>)
    ensures r.Some? <==> WellFormed(s)
  {
    if WellFormed(s) then Some(ParseDate(s)) else None
  }

  // ---------------------------------------------------------------------------------------
  // What the code computes, written the way the code computes it.

  function OnDay(dateOf: string -> Option<Date>, d: Date): string -> bool {
    x => dateOf(x) == Some(d)
  }

  /** `date_to_strings_map[d]` once the whole list has been read: the start times of day `d`,
      appended in their order in the list. */
  function DayGroup(starts: seq<string>, dateOf: string -> Option<Date>, d: Date): seq<string>
    decreases |starts|
  {
    if |starts| == 0 then []
    else
      var last := starts[|starts| - 1];
      DayGroup(starts[..|starts| - 1], dateOf, d) + (if dateOf(last) == Some(d) then [last] else [])
  }

  /** The group of a day is the list filtered by that day. */
  lemma {:induction false} DayGroupIsFilter(starts: seq<string>, dateOf: string -> Option<Date>, d: Date)
    ensures DayGroup(starts, dateOf, d) == Filter(starts, OnDay(dateOf, d))
    decreases |starts|
  {
    if |starts| > 0 {
      var n := |starts| - 1;
      DayGroupIsFilter(starts[..n], dateOf, d);
      assert starts == starts[..n] + [starts[n]];
      FilterSnoc(starts[..n], starts[n], OnDay(dateOf, d));
    }
  }

  /** `{s: i for i, s in enumerate(ys, start=1)}`: a later occurrence of a string overwrites the
      number of an earlier one. */
  function Enumerate(ys: seq<string>): (m: map<string, int>)
    ensures forall y :: y in m <==> y in ys
    ensures forall y :: y in m ==> 1 <= m[y] <= |ys|
    decreases |ys|
  {
    if |ys| == 0 then map[]
    else
      var init := ys[..|ys| - 1];
      assert ys == init + [ys[|ys| - 1]];
      Enumerate(init)[ys[|ys| - 1] := |ys|]
  }

  /** The dictionary built for one day: its start times sorted as strings, then enumerated. */
  function DayNumbers(starts: seq<string>, dateOf: string -> Option<Date>, d: Date): (m: map<string, int>)
    ensures forall x :: x in m <==> x in starts && dateOf(x) == Some(d)
  {
    var ys := SortBy(DayGroup(starts, dateOf, d), LexLessEq);
    SortByMembers(DayGroup(starts, dateOf, d), LexLessEq);
    DayGroupIsFilter(starts, dateOf, d);
    Enumerate(ys)
  }

  predicate AllRead(starts: seq<string>, dateOf: string -> Option<Date>) {
    forall s :: s in starts ==> dateOf(s).Some?
  }

  /** The whole map: reading a start time that cannot be read raises `ValueError`; otherwise
      every start time gets the number it has in its own day's dictionary. */
  function NumbersSpec(starts: seq<string>, dateOf: string -> Option<Date>): Result<map<string, int>> {
    if AllRead(starts, dateOf) then Ok(map s | s in starts :: DayNumbers(starts, dateOf, dateOf(s).value)[s])
    else Err(ValueError)
  }

  /** The map `_create_datetime_string_to_slot_number_map` returns. */
  function SlotNumbers(starts: seq<string>): Result<map<string, int>> {
    NumbersSpec(starts, DateOf)
  }

  // ---------------------------------------------------------------------------------------
  // The loops.

  /** The first loop: a `defaultdict(list)` collects the start times of each day, the days in
      order of first appearance; the first start time that cannot be read stops it. */
  method GroupByDay(starts: seq<string>, dateOf: string -> Option<Date>)
      returns (ok: bool, groups: map<Date, seq<string>>, days: seq<Date>)
    ensures ok <==> AllRead(starts, dateOf)
    ensures ok ==> forall s :: s in starts ==> dateOf(s).value in groups
    ensures ok ==> forall d :: d in days <==> d in groups
    ensures ok ==> forall d :: d in groups ==> groups[d] == DayGroup(starts, dateOf, d)
  {
    groups := map[];
    days := [];
    var i := 0;
    while i < |starts|
      invariant 0 <= i <= |starts|
      invariant forall j :: 0 <= j < i ==> dateOf(starts[j]).Some? && dateOf(starts[j]).value in groups
      invariant forall d :: d in days <==> d in groups
      invariant forall d :: d in groups ==> groups[d] == DayGroup(starts[..i], dateOf, d)
    {
      var s := starts[i];
      var date := dateOf(s);
      if date.None? {
        assert s in starts;
        return false, groups, days;
      }
      var d := date.value;
      if d !in groups {
        DayGroupMissing(starts[..i], dateOf, d);
        groups := groups[d := []];
        days := days + [d];
      }
      GroupStep(starts[..i], dateOf, groups, s);
      assert starts[..i + 1] == starts[..i] + [s];
      groups := groups[d := groups[d] + [s]];
      i := i + 1;
    }
    forall s | s in starts ensures dateOf(s).Some? && dateOf(s).value in groups {
      var j :| 0 <= j < |starts| && starts[j] == s;
    }
    assert starts[..i] == starts;
    return true, groups, days;
  }

  /** Appending a start time of day `d` to the list appends it to the group of `d` only. */
  lemma GroupStep(xs: seq<string>, dateOf: string -> Option<Date>, groups: map<Date, seq<string>>, s: string)
    requires dateOf(s).Some? && dateOf(s).value in groups
    requires forall e :: e in groups ==> groups[e] == DayGroup(xs, dateOf, e)
    ensures var next := groups[dateOf(s).value := groups[dateOf(s).value] + [s]];
      forall e :: e in next ==> next[e] == DayGroup(xs + [s], dateOf, e)
  {
    assert (xs + [s])[..|xs|] == xs;
  }

  lemma {:induction false} DayGroupMissing(xs: seq<string>, dateOf: string -> Option<Date>, d: Date)
    requires forall j :: 0 <= j < |xs| ==> dateOf(xs[j]) != Some(d)
    ensures DayGroup(xs, dateOf, d) == []
    decreases |xs|
  {
    if |xs| > 0 {
      DayGroupMissing(xs[..|xs| - 1], dateOf, d);
    }
  }

  /** The second loop: one dictionary per day, merged into the result with `update`. */
  method MergeDays(starts: seq<string>, dateOf: string -> Option<Date>, groups: map<Date, seq<string>>, days: seq<Date>)
      returns (numbers: map<string, int>)
    requires AllRead(starts, dateOf)
    requires forall s :: s in starts ==> dateOf(s).value in groups
    requires forall d :: d in days <==> d in groups
    requires forall d :: d in groups ==> groups[d] == DayGroup(starts, dateOf, d)
    ensures forall s :: s in numbers <==> s in starts
    ensures forall s :: s in numbers ==> numbers[s] == DayNumbers(starts, dateOf, dateOf(s).value)[s]
  {
    numbers := map[];
    var k := 0;
    while k < |days|
      invariant 0 <= k <= |days|
      invariant forall s :: s in numbers <==> s in starts && dateOf(s).value in days[..k]
      invariant forall s :: s in numbers ==> numbers[s] == DayNumbers(starts, dateOf, dateOf(s).value)[s]
    {
      var d := days[k];
      var ranked := Enumerate(SortBy(groups[d], LexLessEq));
      assert ranked == DayNumbers(starts, dateOf, d);
      MergeStep(starts, dateOf, numbers, d, days[..k]);
      assert days[..k + 1] == days[..k] + [d];
      numbers := numbers + ranked;
      k := k + 1;
    }
    assert days[..k] == days;
    forall s | s in starts ensures s in numbers {
      assert dateOf(s).value in days;
    }
  }

  /** Merging the dictionary of one more day covers that day's start times too. */
  lemma MergeStep(starts: seq<string>, dateOf: string -> Option<Date>, numbers: map<string, int>, d: Date, done: seq<Date>)
    requires AllRead(starts, dateOf)
    requires forall s :: s in numbers <==> s in starts && dateOf(s).value in done
    requires forall s :: s in numbers ==> numbers[s] == DayNumbers(starts, dateOf, dateOf(s).value)[s]
    ensures var next := numbers + DayNumbers(starts, dateOf, d);
      && (forall s :: s in next <==> s in starts && dateOf(s).value in done + [d])
      && (forall s :: s in next ==> next[s] == DayNumbers(starts, dateOf, dateOf(s).value)[s])
  {
  }

  /** `_create_datetime_string_to_slot_number_map`. */
  method NumberStarts(starts: seq<string>) returns (r: Result<map<string, int>>)
    ensures r == SlotNumbers(starts)
  {
    var ok, groups, days := GroupByDay(starts, DateOf);
    if !ok {
      return Err(ValueError);
    }
    var numbers := MergeDays(starts, DateOf, groups, days);
    assert numbers == NumbersSpec(starts, DateOf).value;
    return Ok(numbers);
  }

  // ---------------------------------------------------------------------------------------
  // What the numbers mean.

  /** The start times of day `d` that are not later than `s` (repetitions included). */
  function NotLaterOnDay(dateOf: string -> Option<Date>, d: Date, s: string): string -> bool {
    x => dateOf(x) == Some(d) && LexLessEq(x, s)
  }

  /** The start times of day `d` that are earlier than `s`. */
  function EarlierOnDay(dateOf: string -> Option<Date>, d: Date, s: string): string -> bool {
    x => dateOf(x) == Some(d) && LexLess(x, s)
  }

  /** How many of the start times on the day of `s` are not later than `s`. */
  function Rank(starts: seq<string>, dateOf: string -> Option<Date>, s: string): nat
    requires dateOf(s).Some?
  {
    |Filter(starts, NotLaterOnDay(dateOf, dateOf(s).value, s))|
  }

  lemma LexLessEqTotalPreorder()
    ensures TotalPreorder(LexLessEq)
  {
    forall a, b ensures LexLessEq(a, b) || LexLessEq(b, a) {
      LexLessAsymmetric(a, b);
    }
    forall a, b, c | LexLessEq(a, b) && LexLessEq(b, c) ensures LexLessEq(a, c) {
      if LexLess(c, a) {
        if a != b {
          LexLessTotal(a, b);
          if LexLess(a, b) {
            LexLessTransitive(c, a, b);
          }
        }
      }
    }
  }

  lemma LexLessEqAntisymmetric(a: string, b: string)
    ensures LexLessEq(a, b) && LexLessEq(b, a) ==> a == b
  {
    if a != b {
      LexLessTotal(a, b);
    }
  }

  /** The number of the last occurrence of a string is its position, counted from 1. */
  lemma {:induction false} EnumerateLast(ys: seq<string>, i: nat)
    requires i < |ys|
    requires forall j :: i < j < |ys| ==> ys[j] != ys[i]
    ensures Enumerate(ys)[ys[i]] == i + 1
    decreases |ys|
  {
    var n := |ys| - 1;
    if i < n {
      var init := ys[..n];
      assert Enumerate(ys) == Enumerate(init)[ys[n] := n + 1];
      assert init[i] == ys[i];
      EnumerateLast(init, i);
    }
  }

  function NotLater(s: string): string -> bool {
    x => LexLessEq(x, s)
  }

  /** In a sorted list, `s` last occurs where the strings not later than `s` end, so its number
      counts them. */
  lemma SortedRank(ys: seq<string>, s: string)
    requires SortedBy(ys, LexLessEq) && s in ys
    ensures s in Enumerate(ys) && Enumerate(ys)[s] == |Filter(ys, NotLater(s))|
  {
    var c := SortedLastPosition(ys, s);
    EnumerateLast(ys, c - 1);
  }

  /** The strings not later than `s` form a prefix of a sorted list, and `s` is its last
      element and occurs nowhere after it. */
  lemma SortedLastPosition(ys: seq<string>, s: string) returns (c: nat)
    requires SortedBy(ys, LexLessEq) && s in ys
    ensures c == |Filter(ys, NotLater(s))| && 0 < c <= |ys| && ys[c - 1] == s
    ensures forall j :: c - 1 < j < |ys| ==> ys[j] != s
  {
    var p := NotLater(s);
    NotLaterPrefix(ys, s);
    FilterPrefix(ys, p);
    c := |Filter(ys, p)|;
    LexLessIrreflexive(s);
    assert s in Filter(ys, p);
    var m :| 0 <= m < c && ys[..c][m] == s;
    assert p(ys[c - 1]) by {
      assert ys[c - 1] == Filter(ys, p)[c - 1];
    }
    assert ys[c - 1] == s by {
      if m < c - 1 {
        assert LexLessEq(ys[m], ys[c - 1]);
      }
      LexLessEqAntisymmetric(s, ys[c - 1]);
    }
    forall j | c - 1 < j < |ys| ensures ys[j] != s {
      FilterPrefixRest(ys, p, j);
    }
  }

  /** In a sorted list, a string not later than `s` has only such strings before it. */
  lemma NotLaterPrefix(ys: seq<string>, s: string)
    requires SortedBy(ys, LexLessEq)
    ensures forall i, j :: 0 <= i < j < |ys| && NotLater(s)(ys[j]) ==> NotLater(s)(ys[i])
  {
    LexLessEqTotalPreorder();
    forall i, j | 0 <= i < j < |ys| && NotLater(s)(ys[j]) ensures NotLater(s)(ys[i]) {
      Transitive(LexLessEq, ys[i], ys[j], s);
    }
  }

  /** Sorting the day's start times and enumerating them numbers each by its rank in its day. */
  lemma DayNumberIsRank(starts: seq<string>, dateOf: string -> Option<Date>, s: string)
    requires s in starts && dateOf(s).Some?
    ensures s in DayNumbers(starts, dateOf, dateOf(s).value)
    ensures DayNumbers(starts, dateOf, dateOf(s).value)[s] == Rank(starts, dateOf, s)
  {
    var d := dateOf(s).value;
    var g := DayGroup(starts, dateOf, d);
    var ys := SortBy(g, LexLessEq);
    LexLessEqTotalPreorder();
    SortBySorted(g, LexLessEq);
    SortByMembers(g, LexLessEq);
    DayGroupIsFilter(starts, dateOf, d);
    assert s in g;
    SortedRank(ys, s);
    FilterLengthByMultiset(g, ys, NotLater(s));
    FilterTwice(starts, OnDay(dateOf, d), NotLater(s), NotLaterOnDay(dateOf, d, s));
  }

  /** The map raises exactly when a start time cannot be read, numbers exactly the start times
      given, and numbers each by its rank within its day. */
  lemma NumbersAreRanks(starts: seq<string>, dateOf: string -> Option<Date>)
    ensures NumbersSpec(starts, dateOf).Ok? <==> AllRead(starts, dateOf)
    ensures NumbersSpec(starts, dateOf).Err? ==> NumbersSpec(starts, dateOf).error == ValueError
    ensures NumbersSpec(starts, dateOf).Ok? ==>
      && (forall s :: s in NumbersSpec(starts, dateOf).value <==> s in starts)
      && forall s :: s in starts ==> NumbersSpec(starts, dateOf).value[s] == Rank(starts, dateOf, s)
  {
    if AllRead(starts, dateOf) {
      forall s | s in starts ensures NumbersSpec(starts, dateOf).value[s] == Rank(starts, dateOf, s) {
        DayNumberIsRank(starts, dateOf, s);
      }
    }
  }

  /** Every number lies between 1 and the number of start times on that day. */
  lemma RankBounds(starts: seq<string>, dateOf: string -> Option<Date>, s: string)
    requires s in starts && dateOf(s).Some?
    ensures 1 <= Rank(starts, dateOf, s) <= |DayGroup(starts, dateOf, dateOf(s).value)|
  {
    var d := dateOf(s).value;
    LexLessIrreflexive(s);
    assert s in Filter(starts, NotLaterOnDay(dateOf, d, s));
    FilterLengthMonotone(starts, NotLaterOnDay(dateOf, d, s), OnDay(dateOf, d), s);
    DayGroupIsFilter(starts, dateOf, d);
  }

  lemma SameMembers(xs: seq<string>, ys: seq<string>)
    requires multiset(xs) == multiset(ys)
    ensures forall s :: s in xs <==> s in ys
  {
    forall s ensures s in xs <==> s in ys {
      assert s in xs <==> s in multiset(xs);
      assert s in ys <==> s in multiset(ys);
    }
  }

  /** The numbers do not depend on the order the start times arrive in (in the code they come
      out of a `set`), only on how often each occurs. */
  lemma NumbersIgnoreOrder(xs: seq<string>, ys: seq<string>, dateOf: string -> Option<Date>)
    requires multiset(xs) == multiset(ys)
    ensures NumbersSpec(xs, dateOf) == NumbersSpec(ys, dateOf)
  {
    SameMembers(xs, ys);
    if AllRead(xs, dateOf) {
      var a, b := NumbersSpec(xs, dateOf).value, NumbersSpec(ys, dateOf).value;
      forall s | s in xs ensures a[s] == b[s] {
        DayNumberIsRank(xs, dateOf, s);
        DayNumberIsRank(ys, dateOf, s);
        FilterLengthByMultiset(xs, ys, NotLaterOnDay(dateOf, dateOf(s).value, s));
      }
      assert a == b;
    }
  }

  /** A start time that occurs once (the code passes a `set`) is numbered one more than the
      number of start times earlier on the same day. */
  lemma RankOfDistinct(starts: seq<string>, dateOf: string -> Option<Date>, s: string)
    requires dateOf(s).Some? && multiset(starts)[s] == 1
    ensures Rank(starts, dateOf, s) == 1 + |Filter(starts, EarlierOnDay(dateOf, dateOf(s).value, s))|
  {
    var d := dateOf(s).value;
    LexLessIrreflexive(s);
    forall y | y != s ensures NotLaterOnDay(dateOf, d, s)(y) == EarlierOnDay(dateOf, d, s)(y) {
      assert NotLaterOnDay(dateOf, d, s)(y) == (dateOf(y) == Some(d) && !LexLess(s, y));
      assert EarlierOnDay(dateOf, d, s)(y) == (dateOf(y) == Some(d) && LexLess(y, s));
      LexLessTotal(y, s);
      LexLessAsymmetric(y, s);
    }
    FilterLengthAddOne(starts, NotLaterOnDay(dateOf, d, s), EarlierOnDay(dateOf, d, s), s);
  }

  /** Within a day, a start time that sorts before another gets a smaller number. */
  lemma RankFollowsOrder(starts: seq<string>, dateOf: string -> Option<Date>, s: string, t: string)
    requires dateOf(s).Some? && dateOf(t) == dateOf(s) && t in starts && LexLess(s, t)
    ensures Rank(starts, dateOf, s) < Rank(starts, dateOf, t)
  {
    var d := dateOf(s).value;
    var p, q := NotLaterOnDay(dateOf, d, s), NotLaterOnDay(dateOf, d, t);
    LexLessIrreflexive(t);
    LexLessAsymmetric(s, t);
    forall x | p(x) ensures q(x) {
      if LexLess(t, x) {
        LexLessTransitive(s, t, x);
      }
    }
    FilterLengthMonotone(starts, p, q, t);
  }

  /** With the dates of `strptime`: within a day, a start time earlier in the day gets a
      smaller number. */
  lemma SlotNumbersFollowTime(starts: seq<string>, s: string, t: string)
    requires WellFormed(s) && WellFormed(t) && t in starts
    requires ParseDate(s) == ParseDate(t) && TimeLess(ParseTime(s), ParseTime(t))
    ensures Rank(starts, DateOf, s) < Rank(starts, DateOf, t)
  {
    LexOrderIsChronological(s, t);
    RankFollowsOrder(starts, DateOf, s, t);
  }
}
