/** The weekly commit grid of `Code/Graph/generate_commit_graph.py`: every
    commit is put in the bucket (ISO year, ISO week, weekday) of its date,
    the buckets are counted, and the counts are spread over the full
    product of the observed year range, the observed week range and the
    seven weekdays, with 0 wherever no commit fell.
 */
module WeeklyGrid {
  import opened Outcomes
  import opened Calendar
  import opened IsoWeek
  import opened CommitLog
  import opened Tally

  /** The order of (year, week, day_of_week) keys: by year, then week, then
      weekday. `groupby` sorts its groups this way and `from_product`
      enumerates its keys this way. */
  predicate Before(a: WeekDate, b: WeekDate) {
    || a.year < b.year
    || (a.year == b.year && a.week < b.week)
    || (a.year == b.year && a.week == b.week && a.weekday < b.weekday)
  }

  /** Strictly ascending keys, hence no key twice. */
  predicate Ascending(ks: seq<WeekDate>) {
    forall i, j :: 0 <= i < j < |ks| ==> Before(ks[i], ks[j])
  }

  lemma AscendingIsDistinct(ks: seq<WeekDate>)
    requires Ascending(ks)
    ensures Distinct(ks)
  {
  }

  /** One row of the counted table: a bucket and its number of commits. */
  datatype Row = Row(key: WeekDate, count: nat)

  function KeysOf(rows: seq<Row>): (ks: seq<WeekDate>)
    ensures |ks| == |rows|
    ensures forall i :: 0 <= i < |rows| ==> ks[i] == rows[i].key
  {
    seq(|rows|, i requires 0 <= i < |rows| => rows[i].key)
  }

  predicate SortedRows(rows: seq<Row>) {
    forall i, j :: 0 <= i < j < |rows| ==> Before(rows[i].key, rows[j].key)
  }

  predicate Positive(rows: seq<Row>) {
    forall i :: 0 <= i < |rows| ==> rows[i].count >= 1
  }

  /** The commits a table stands for: each row's key, `count` times. */
  function Expand(rows: seq<Row>): multiset<WeekDate> {
    if |rows| == 0 then multiset{}
    else multiset{}[rows[0].key := rows[0].count] + Expand(rows[1..])
  }

  /** The `count` column added up. */
  function TotalCount(rows: seq<Row>): nat {
    if |rows| == 0 then 0 else rows[0].count + TotalCount(rows[1..])
  }

  lemma {:induction false} ExpandSize(rows: seq<Row>)
    ensures |Expand(rows)| == TotalCount(rows)
  {
    if |rows| > 0 {
      ExpandSize(rows[1..]);
    }
  }

  /** The count a table gives key `k` (what `reindex` looks up): the count of
      the first row with that key, or 0 when no row has it. */
  function Lookup(rows: seq<Row>, k: WeekDate): nat {
    if |rows| == 0 then 0
    else if rows[0].key == k then rows[0].count
    else Lookup(rows[1..], k)
  }

  lemma {:induction false} ExpandAbsent(rows: seq<Row>, k: WeekDate)
    requires forall i :: 0 <= i < |rows| ==> rows[i].key != k
    ensures Expand(rows)[k] == 0
  {
    if |rows| > 0 {
      ExpandAbsent(rows[1..], k);
    }
  }

  /** In a table without repeated keys, the looked-up count of a key is the
      number of commits the table holds for it. */
  lemma {:induction false} LookupCounts(rows: seq<Row>, k: WeekDate)
    requires SortedRows(rows)
    ensures Lookup(rows, k) == Expand(rows)[k]
  {
    if |rows| > 0 {
      if rows[0].key == k {
        ExpandAbsent(rows[1..], k);
      } else {
        LookupCounts(rows[1..], k);
      }
    }
  }

  /** Adds one commit with key `k` to a sorted table: its row's count goes
      up by one, or a new row with count 1 goes where the order puts it. */
  function Insert(rows: seq<Row>, k: WeekDate): (r: seq<Row>)
    requires SortedRows(rows) && Positive(rows)
    ensures SortedRows(r) && Positive(r)
    ensures Expand(r) == Expand(rows) + multiset{k}
    ensures |r| > 0 && (r[0].key == k || (|rows| > 0 && r[0].key == rows[0].key))
  {
    if |rows| == 0 then
      assert Expand([Row(k, 1)]) == multiset{k};
      [Row(k, 1)]
    else if rows[0].key == k then
      var r := [Row(k, rows[0].count + 1)] + rows[1..];
      assert r[1..] == rows[1..];
      assert multiset{}[k := rows[0].count + 1] == multiset{}[k := rows[0].count] + multiset{k};
      r
    else if Before(k, rows[0].key) then
      var r := [Row(k, 1)] + rows;
      assert r[1..] == rows;
      assert multiset{}[k := 1] == multiset{k};
      r
    else
      var rest := Insert(rows[1..], k);
      var r := [rows[0]] + rest;
      assert r[1..] == rest;
      r
  }

  /** `df.groupby(["year", "week", "day_of_week"]).size().reset_index()`:
      the distinct keys in ascending order, each with its number of
      occurrences. The table holds exactly the commits it was built from,
      and no row has count 0. */
  function GroupCount(keys: seq<WeekDate>): (rows: seq<Row>)
    ensures SortedRows(rows) && Positive(rows)
    ensures Expand(rows) == multiset(keys)
  {
    if |keys| == 0 then []
    else
      var last := |keys| - 1;
      assert keys == keys[..last] + [keys[last]];
      Insert(GroupCount(keys[..last]), keys[last])
  }

  /** After grouping, every key appears once, observed keys with their
      number of occurrences and unobserved ones not at all, and the counts
      add up to the number of commits. */
  lemma GroupCountCounts(keys: seq<WeekDate>)
    ensures Distinct(KeysOf(GroupCount(keys)))
    ensures forall k :: Lookup(GroupCount(keys), k) == multiset(keys)[k]
    ensures forall i :: 0 <= i < |keys| ==> keys[i] in KeysOf(GroupCount(keys))
    ensures TotalCount(GroupCount(keys)) == |keys|
  {
    var rows := GroupCount(keys);
    AscendingIsDistinct(KeysOf(rows));
    forall k
      ensures Lookup(rows, k) == multiset(keys)[k]
    {
      LookupCounts(rows, k);
    }
    forall i | 0 <= i < |keys|
      ensures keys[i] in KeysOf(rows)
    {
      var k := keys[i];
      if k !in KeysOf(rows) {
        ExpandAbsent(rows, k);
        assert false;
      }
    }
    ExpandSize(rows);
  }

  /** Number of integers from `lo` to `hi` inclusive. */
  function Span(lo: int, hi: int): nat {
    if lo <= hi then hi - lo + 1 else 0
  }

  /** A key inside the product of the year range, the week range and the
      seven weekdays. */
  predicate InGrid(k: WeekDate, minYear: int, maxYear: int, minWeek: int, maxWeek: int) {
    && minYear <= k.year <= maxYear
    && minWeek <= k.week <= maxWeek
    && 0 <= k.weekday <= 6
  }

  /** The seven keys of one week, Monday first. */
  function WeekKeys(y: int, w: int): (ks: seq<WeekDate>)
    ensures |ks| == 7
    ensures forall i :: 0 <= i < 7 ==> ks[i] == WeekDate(y, w, i)
  {
    seq(7, d => WeekDate(y, w, d))
  }

  /** The keys of weeks `lo` to `hi` of year `y`, in order. */
  function WeekRangeKeys(y: int, lo: int, hi: int): (ks: seq<WeekDate>)
    ensures |ks| == 7 * Span(lo, hi)
    ensures Ascending(ks)
    ensures forall k :: k in ks <==> InGrid(k, y, y, lo, hi)
    decreases hi - lo
  {
    if lo > hi then []
    else
      var first := WeekKeys(y, lo);
      var rest := WeekRangeKeys(y, lo + 1, hi);
      var ks := first + rest;
      forall i, j | 0 <= i < |first| && 0 <= j < |rest|
        ensures Before(first[i], rest[j])
      {
        assert rest[j] in rest;
      }
      forall k | InGrid(k, y, y, lo, hi)
        ensures k in ks
      {
        if k.week == lo {
          assert first[k.weekday] == k;
        } else {
          assert k in rest;
        }
      }
      ConcatAscending(first, rest);
      ks
  }

  /** Two ascending runs, all of the first before all of the second, make
      one ascending run. */
  lemma ConcatAscending(a: seq<WeekDate>, b: seq<WeekDate>)
    requires Ascending(a) && Ascending(b)
    requires forall i, j :: 0 <= i < |a| && 0 <= j < |b| ==> Before(a[i], b[j])
    ensures Ascending(a + b)
  {
  }

  /** `pd.MultiIndex.from_product([years, weeks, days])`: every combination,
      years outermost, then weeks, then weekdays; ascending, so no key
      twice; (years) x (weeks) x 7 keys in all. */
  function Product(minYear: int, maxYear: int, minWeek: int, maxWeek: int): (ks: seq<WeekDate>)
    ensures Ascending(ks)
    ensures forall k :: k in ks <==> InGrid(k, minYear, maxYear, minWeek, maxWeek)
    ensures |ks| == Span(minYear, maxYear) * Span(minWeek, maxWeek) * 7
    decreases maxYear - minYear
  {
    if minYear > maxYear then []
    else
      var first := WeekRangeKeys(minYear, minWeek, maxWeek);
      var rest := Product(minYear + 1, maxYear, minWeek, maxWeek);
      forall i, j | 0 <= i < |first| && 0 <= j < |rest|
        ensures Before(first[i], rest[j])
      {
        assert first[i] in first && rest[j] in rest;
      }
      ConcatAscending(first, rest);
      var ks := first + rest;
      forall k | InGrid(k, minYear, maxYear, minWeek, maxWeek)
        ensures k in ks
      {
        if k.year == minYear {
          assert k in first;
        } else {
          assert k in rest;
        }
      }
      var s := Span(minWeek, maxWeek);
      assert |ks| == 7 * s + (Span(minYear, maxYear) - 1) * s * 7;
      ks
  }

  /** `set_index(...).reindex(full_index, fill_value=0)` on the grouped
      table (whose keys are distinct, as `reindex` demands): one row per
      grid key, in grid order, carrying the number of commits the grouped
      table holds for that key, which is 0 for a key it does not have. */
  function Reindex(rows: seq<Row>, grid: seq<WeekDate>): (r: seq<Row>)
    requires SortedRows(rows)
    ensures KeysOf(r) == grid
    ensures forall i :: 0 <= i < |grid| ==> r[i].count == Expand(rows)[grid[i]]
    ensures Positive(rows) ==> forall i :: 0 <= i < |grid| ==> (r[i].count == 0 <==> grid[i] !in KeysOf(rows))
  {
    LookupCountsAll(rows);
    seq(|grid|, i requires 0 <= i < |grid| => Row(grid[i], Lookup(rows, grid[i])))
  }

  /** `LookupCounts` for every key at once, and a positive table has a
      positive count exactly for its own keys. */
  lemma LookupCountsAll(rows: seq<Row>)
    requires SortedRows(rows)
    ensures forall k :: Lookup(rows, k) == Expand(rows)[k]
    ensures Positive(rows) ==> forall k :: Lookup(rows, k) == 0 <==> k !in KeysOf(rows)
  {
    forall k
      ensures Lookup(rows, k) == Expand(rows)[k]
    {
      LookupCounts(rows, k);
    }
    if Positive(rows) {
      forall k
        ensures Lookup(rows, k) == 0 <==> k !in KeysOf(rows)
      {
        LookupFound(rows, k);
      }
    }
  }

  /** In a positive table a key has a positive lookup exactly when some row
      holds it. */
  lemma {:induction false} LookupFound(rows: seq<Row>, k: WeekDate)
    requires Positive(rows)
    ensures Lookup(rows, k) == 0 <==> k !in KeysOf(rows)
  {
    if |rows| > 0 {
      LookupFound(rows[1..], k);
      assert KeysOf(rows) == [rows[0].key] + KeysOf(rows[1..]);
    }
  }

  function Years(keys: seq<WeekDate>): (ys: seq<int>)
    ensures |ys| == |keys|
    ensures forall i :: 0 <= i < |keys| ==> ys[i] == keys[i].year
  {
    seq(|keys|, i requires 0 <= i < |keys| => keys[i].year)
  }

  function Weeks(keys: seq<WeekDate>): (ws: seq<int>)
    ensures |ws| == |keys|
    ensures forall i :: 0 <= i < |keys| ==> ws[i] == keys[i].week
  {
    seq(|keys|, i requires 0 <= i < |keys| => keys[i].week)
  }

  /** `Series.min()` of a non-empty column. */
  function Min(xs: seq<int>): (m: int)
    requires |xs| > 0
    ensures m in xs
    ensures forall i :: 0 <= i < |xs| ==> m <= xs[i]
  {
    if |xs| == 1 then xs[0]
    else
      var rest := Min(xs[1..]);
      assert forall i :: 1 <= i < |xs| ==> xs[i] == xs[1..][i - 1];
      if xs[0] <= rest then xs[0] else rest
  }

  /** `Series.max()` of a non-empty column. */
  function Max(xs: seq<int>): (m: int)
    requires |xs| > 0
    ensures m in xs
    ensures forall i :: 0 <= i < |xs| ==> xs[i] <= m
  {
    if |xs| == 1 then xs[0]
    else
      var rest := Max(xs[1..]);
      assert forall i :: 1 <= i < |xs| ==> xs[i] == xs[1..][i - 1];
      if xs[0] >= rest then xs[0] else rest
  }

  /** The product the reindex spreads the counts over: observed years from
      the smallest to the largest, observed weeks likewise (taken over all
      years together), and the seven weekdays. */
  function FullIndex(keys: seq<WeekDate>): seq<WeekDate>
    requires |keys| > 0
  {
    Product(Min(Years(keys)), Max(Years(keys)), Min(Weeks(keys)), Max(Weeks(keys)))
  }

  /** Lines 38-49 on the key columns: count per key, then reindex onto the
      full product with zero fill. An empty history raises, as `range` over
      the missing minimum does.

      The densified table has exactly the product's keys, ascending and
      without repetition, (years) x (weeks) x 7 of them; an observed key is
      among them exactly when its weekday is one of the seven, which the
      weekday of a date always is; each key carries its number of commits
      (0 for keys never observed), so when no key was dropped the counts
      add up to the number of commits. */
  function Densify(keys: seq<WeekDate>): (r: Result<seq<Row>>)
    ensures r.Err? <==> |keys| == 0
    ensures r.Err? ==> r.error == EmptyHistory
    ensures r.Ok? ==>
              var minYear, maxYear := Min(Years(keys)), Max(Years(keys));
              var minWeek, maxWeek := Min(Weeks(keys)), Max(Weeks(keys));
              && Ascending(KeysOf(r.value))
              && (forall k :: k in KeysOf(r.value) <==> InGrid(k, minYear, maxYear, minWeek, maxWeek))
              && |r.value| == Span(minYear, maxYear) * Span(minWeek, maxWeek) * 7
              && (forall i :: 0 <= i < |keys| ==> (keys[i] in KeysOf(r.value) <==> 0 <= keys[i].weekday <= 6))
              && (forall i :: 0 <= i < |r.value| ==> r.value[i].count == multiset(keys)[r.value[i].key])
              && ((forall i :: 0 <= i < |keys| ==> 0 <= keys[i].weekday <= 6) ==> TotalCount(r.value) == |keys|)
  {
    if |keys| == 0 then Err(EmptyHistory)
    else
      var grouped := GroupCount(keys);
      var grid := FullIndex(keys);
      var table := Reindex(grouped, grid);
      DensifyFacts(keys, grouped, grid, table);
      Ok(table)
  }

  lemma DensifyFacts(keys: seq<WeekDate>, grouped: seq<Row>, grid: seq<WeekDate>, table: seq<Row>)
    requires |keys| > 0
    requires grouped == GroupCount(keys)
    requires grid == FullIndex(keys)
    requires table == Reindex(grouped, grid)
    ensures KeysOf(table) == grid
    ensures forall i :: 0 <= i < |keys| ==> (keys[i] in grid <==> 0 <= keys[i].weekday <= 6)
    ensures forall i :: 0 <= i < |table| ==> table[i].count == multiset(keys)[table[i].key]
    ensures (forall i :: 0 <= i < |keys| ==> 0 <= keys[i].weekday <= 6) ==> TotalCount(table) == |keys|
  {
    GroupCountCounts(keys);
    ObservedInGrid(keys);
    assert KeysOf(table) == grid;
    if forall i :: 0 <= i < |keys| ==> 0 <= keys[i].weekday <= 6 {
      AscendingIsDistinct(grid);
      forall x | x in multiset(keys)
        ensures x in grid
      {
        var i :| 0 <= i < |keys| && keys[i] == x;
      }
      SumOverCoversAll(grid, multiset(keys));
      TotalIsSumOver(table, grid, multiset(keys));
    }
  }

  /** An observed key lies inside the product exactly when its weekday is
      one of the seven: its year and its week always lie between the
      observed minimum and maximum. */
  lemma ObservedInGrid(keys: seq<WeekDate>)
    requires |keys| > 0
    ensures forall i :: 0 <= i < |keys| ==> (keys[i] in FullIndex(keys) <==> 0 <= keys[i].weekday <= 6)
  {
  }

  /** A table whose counts are read off a multiset sums to the multiset's
      total over the table's keys. */
  lemma {:induction false} TotalIsSumOver(table: seq<Row>, grid: seq<WeekDate>, m: multiset<WeekDate>)
    requires KeysOf(table) == grid
    requires forall i :: 0 <= i < |table| ==> table[i].count == m[table[i].key]
    ensures TotalCount(table) == SumOver(grid, m)
  {
    if |table| > 0 {
      assert KeysOf(table[1..]) == grid[1..];
      TotalIsSumOver(table[1..], grid[1..], m);
    }
  }

  /** Lines 33-35: the bucket of each commit, from its date's ISO year and
      week and its weekday (0 = Monday ... 6 = Sunday). */
  function BucketKeys(commits: seq<Commit>): (keys: seq<WeekDate>)
    requires forall i :: 0 <= i < |commits| ==> ValidDate(commits[i].date)
    ensures |keys| == |commits|
    ensures forall i :: 0 <= i < |commits| ==>
              && keys[i] == IsoCalendar(commits[i].date)
              && 1 <= keys[i].week <= 53
              && keys[i].weekday == Weekday(commits[i].date)
              && 0 <= keys[i].weekday <= 6
  {
    if |commits| == 0 then []
    else [IsoCalendar(commits[0].date)] + BucketKeys(commits[1..])
  }

  /** The whole weekly script from git's output to the table it plots.
      Each step that raises in the script yields its error here. */
  function CommitGrid(stdout: string): (r: Result<seq<Row>>)
    ensures r.Ok? ==> LoadCommits(stdout).Ok? && TotalCount(r.value) == |LoadCommits(stdout).value|
  {
    var commits :- LoadCommits(stdout);
    GridOfCommits(commits)
  }

  /** Lines 33-49 on loaded commits: bucket, count and densify. Every
      commit lands in the grid, so the counts add up to their number. */
  function GridOfCommits(commits: seq<Commit>): (r: Result<seq<Row>>)
    requires forall i :: 0 <= i < |commits| ==> ValidDate(commits[i].date)
    ensures r.Err? <==> |commits| == 0
    ensures r.Ok? ==> TotalCount(r.value) == |commits|
  {
    var keys := BucketKeys(commits);
    assert forall i :: 0 <= i < |keys| ==> 0 <= keys[i].weekday <= 6;
    Densify(keys)
  }

  /** When every commit falls in one ISO week, the grid is that week:
      seven rows, Monday to Sunday, each with its number of commits. */
  lemma SingleWeekGrid(keys: seq<WeekDate>, y: int, w: int)
    requires |keys| > 0
    requires forall i :: 0 <= i < |keys| ==> keys[i].year == y && keys[i].week == w && 0 <= keys[i].weekday <= 6
    ensures var r := Densify(keys);
            && r.Ok? && |r.value| == 7
            && forall i :: 0 <= i < 7 ==> r.value[i] == Row(WeekDate(y, w, i), multiset(keys)[WeekDate(y, w, i)])
  {
  }

  /** The buckets of two commits. */
  lemma PairKeys(a: Commit, b: Commit) returns (keys: seq<WeekDate>)
    requires ValidDate(a.date) && ValidDate(b.date)
    ensures keys == BucketKeys([a, b]) == [IsoCalendar(a.date), IsoCalendar(b.date)]
  {
    keys := BucketKeys([a, b]);
  }

  /** Two commits on the same day make one bucket of count 2, inside a
      grid of a single week. */
  lemma SameDayExample(a: Commit, b: Commit)
    requires ValidDate(a.date) && a.date == b.date
    ensures var k := IsoCalendar(a.date);
            var r := Densify(BucketKeys([a, b]));
            && r.Ok? && |r.value| == 7
            && r.value[k.weekday] == Row(k, 2)
  {
    var k := IsoCalendar(a.date);
    var keys := PairKeys(a, b);
    assert keys == [k, k];
    SameKeyGrid(keys, k);
  }

  /** The table of a key observed twice. */
  lemma SameKeyGrid(keys: seq<WeekDate>, k: WeekDate)
    requires keys == [k, k] && 0 <= k.weekday <= 6
    ensures var r := Densify(keys);
            && r.Ok? && |r.value| == 7
            && r.value[k.weekday] == Row(k, 2)
  {
  }

  /** The keys of commits on 2024-12-30 and 2025-01-02 (see
      IsoWeek.YearBoundaryExample) make a grid of that single week, with
      one commit on Monday and one on Thursday. */
  lemma YearBoundaryGrid(keys: seq<WeekDate>)
    requires keys == [WeekDate(2025, 1, 0), WeekDate(2025, 1, 3)]
    ensures var r := Densify(keys);
            && r.Ok? && |r.value| == 7
            && r.value[0] == Row(WeekDate(2025, 1, 0), 1)
            && r.value[3] == Row(WeekDate(2025, 1, 3), 1)
  {
  }

  /** The weeks range is taken over all years together: a history from
      week 53 of ISO year `y` (as 2020-12-31 is, see
      IsoWeek.Week53Example) to week 1 of `y + 1` gets a grid of weeks 1 to
      53 in both years, 742 rows. It holds every week of `y` before the
      first commit, and week 53 of `y + 1` even when that year has only 52
      weeks. */
  lemma PhantomWeekGrid(keys: seq<WeekDate>, y: int)
    requires keys == [WeekDate(y, 53, 3), WeekDate(y + 1, 1, 0)]
    ensures var r := Densify(keys);
            && r.Ok? && |r.value| == 742
            && WeekDate(y, 1, 0) in KeysOf(r.value)
            && WeekDate(y + 1, 53, 0) in KeysOf(r.value)
  {
    var ys, ws := Years(keys), Weeks(keys);
    assert ys[0] == y && ys[1] == y + 1;
    assert ws[0] == 53 && ws[1] == 1;
    assert Min(ys) == y && Max(ys) == y + 1;
    assert Min(ws) == 1 && Max(ws) == 53;
  }

  /** No date falls in week 53 of ISO year 2021: that row of the grid above
      stays 0 whatever the history. */
  lemma PhantomWeek(d: Date)
    requires ValidDate(d)
    ensures IsoCalendar(d).year == 2021 ==> IsoCalendar(d).week <= 52
  {
    Week53Example();
  }
}
