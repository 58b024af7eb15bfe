/** The recipe book listing of `show_all_recipes` (main.py:280-306): which
    rows of the recipes table are shown and in what order. */
module Listing {
  import opened Text
  import opened Days
  import opened Store

  /** The filter value that shows every day. */
  const AllDays: string := "All"

  /** The two `ORDER BY` clauses: by the day key and then the name for the
      unfiltered listing, by the name alone for a single day. */
  datatype SortKey = ByDayThenName | ByName

  /** `a` may be listed before `b`: its key is not larger. Names compare as
      SQLite's default BINARY collation does, which on UTF-8 text is the
      code-point order `Less`. */
  predicate InOrder(key: SortKey, a: Recipe, b: Recipe)
  {
    if key == ByDayThenName && DayRank(a.day) != DayRank(b.day) then DayRank(a.day) < DayRank(b.day)
    else !Less(b.name, a.name)
  }

  lemma InOrderTotal(key: SortKey, a: Recipe, b: Recipe)
    ensures InOrder(key, a, b) || InOrder(key, b, a)
  {
    if a.name != b.name {
      LessConnected(a.name, b.name);
      if Less(a.name, b.name) { LessAsymmetric(a.name, b.name); }
      else { LessAsymmetric(b.name, a.name); }
    } else {
      LessIrreflexive(a.name);
    }
  }

  lemma InOrderTransitive(key: SortKey, a: Recipe, b: Recipe, c: Recipe)
    requires InOrder(key, a, b) && InOrder(key, b, c)
    ensures InOrder(key, a, c)
  {
    if !(key == ByDayThenName && (DayRank(a.day) != DayRank(b.day) || DayRank(b.day) != DayRank(c.day))) {
      if Less(c.name, a.name) {
        if b.name != a.name {
          LessConnected(a.name, b.name);
          if Less(a.name, b.name) { LessTransitive(c.name, a.name, b.name); }
        }
      }
    }
  }

  predicate Sorted(key: SortKey, rows: seq<Recipe>)
  {
    forall i, j :: 0 <= i < j < |rows| ==> InOrder(key, rows[i], rows[j])
  }

  /** A row that may precede every row of a sorted list goes in front. */
  lemma SortedCons(key: SortKey, h: Recipe, rows: seq<Recipe>)
    requires Sorted(key, rows)
    requires forall j :: 0 <= j < |rows| ==> InOrder(key, h, rows[j])
    ensures Sorted(key, [h] + rows)
  {
    var r := [h] + rows;
    forall i, j | 0 <= i < j < |r| ensures InOrder(key, r[i], r[j]) {
      assert r[j] == rows[j - 1];
      if i > 0 { assert r[i] == rows[i - 1]; }
    }
  }

  /** A row that may precede the head of a sorted list may precede all of it. */
  lemma InsertFront(key: SortKey, x: Recipe, rows: seq<Recipe>)
    requires Sorted(key, rows) && rows != [] && InOrder(key, x, rows[0])
    ensures Sorted(key, [x] + rows)
  {
    forall j | 0 < j < |rows| ensures InOrder(key, x, rows[j]) {
      InOrderTransitive(key, x, rows[0], rows[j]);
    }
    SortedCons(key, x, rows);
  }

  /** The head of a sorted list stays in front when `x`, which it may
      precede, is inserted into its tail. */
  lemma InsertBehind(key: SortKey, x: Recipe, rows: seq<Recipe>, rest: seq<Recipe>)
    requires Sorted(key, rows) && rows != [] && InOrder(key, rows[0], x)
    requires Sorted(key, rest) && multiset(rest) == multiset(rows[1..]) + multiset{x}
    ensures Sorted(key, [rows[0]] + rest)
  {
    forall j | 0 <= j < |rest| ensures InOrder(key, rows[0], rest[j]) {
      assert rest[j] in multiset(rest);
      if rest[j] != x {
        assert rest[j] in multiset(rows[1..]);
        var k :| 0 <= k < |rows[1..]| && rows[1..][k] == rest[j];
        assert rows[k + 1] == rest[j];
      }
    }
    SortedCons(key, rows[0], rest);
  }

  /** Puts `x` into a sorted list, after every row that may precede it. */
  function Insert(key: SortKey, x: Recipe, rows: seq<Recipe>): (r: seq<Recipe>)
    requires Sorted(key, rows)
    ensures Sorted(key, r)
    ensures multiset(r) == multiset(rows) + multiset{x}
  {
    if rows == [] then [x]
    else if InOrder(key, x, rows[0]) then
      InsertFront(key, x, rows);
      [x] + rows
    else
      InOrderTotal(key, x, rows[0]);
      assert rows == [rows[0]] + rows[1..];
      var rest := Insert(key, x, rows[1..]);
      InsertBehind(key, x, rows, rest);
      [rows[0]] + rest
  }

  /** The rows ordered by `key`: a sorted permutation. Rows whose keys are
      equal may come in either order, as SQL leaves them. */
  function SortRows(key: SortKey, rows: seq<Recipe>): (r: seq<Recipe>)
    ensures Sorted(key, r)
    ensures multiset(r) == multiset(rows)
  {
    if rows == [] then []
    else
      assert rows == rows[..|rows| - 1] + [rows[|rows| - 1]];
      Insert(key, rows[|rows| - 1], SortRows(key, rows[..|rows| - 1]))
  }

  /** The filter: every row for "All", otherwise the rows of that day. */
  predicate MatchesFilter(selectedDay: string, row: Recipe)
  {
    selectedDay == AllDays || row.day == selectedDay
  }

  function Filter(rs: seq<Recipe>, selectedDay: string): (r: seq<Recipe>)
    ensures forall x :: multiset(r)[x] == if MatchesFilter(selectedDay, x) then multiset(rs)[x] else 0
    ensures forall k :: 0 <= k < |r| ==> MatchesFilter(selectedDay, r[k])
    ensures selectedDay == AllDays ==> r == rs
  {
    if rs == [] then []
    else
      var last := rs[|rs| - 1];
      assert rs == rs[..|rs| - 1] + [last];
      Filter(rs[..|rs| - 1], selectedDay) + if MatchesFilter(selectedDay, last) then [last] else []
  }

  /** Reordering keeps every row one the filter shows. */
  lemma SameRowsMatch(f: seq<Recipe>, r: seq<Recipe>, selectedDay: string)
    requires multiset(r) == multiset(f)
    requires forall k :: 0 <= k < |f| ==> MatchesFilter(selectedDay, f[k])
    ensures forall k :: 0 <= k < |r| ==> MatchesFilter(selectedDay, r[k])
  {
    forall k | 0 <= k < |r| ensures MatchesFilter(selectedDay, r[k]) {
      assert r[k] in multiset(f);
      var j :| 0 <= j < |f| && f[j] == r[k];
    }
  }

  /** The rows `show_all_recipes` draws for the filter value: each shown row
      exactly as often as the table holds it, every other row not at all,
      sorted by day and name for "All" and by name for a single day. */
  function ListRecipes(rs: seq<Recipe>, selectedDay: string): (r: seq<Recipe>)
    ensures forall x :: multiset(r)[x] == if MatchesFilter(selectedDay, x) then multiset(rs)[x] else 0
    ensures selectedDay == AllDays ==> multiset(r) == multiset(rs) && Sorted(ByDayThenName, r)
    ensures selectedDay != AllDays ==> Sorted(ByName, r) && forall k :: 0 <= k < |r| ==> r[k].day == selectedDay
  {
    var key := if selectedDay == AllDays then ByDayThenName else ByName;
    var f := Filter(rs, selectedDay);
    var r := SortRows(key, f);
    SameRowsMatch(f, r, selectedDay);
    r
  }
}
