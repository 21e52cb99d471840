/** The per-day commit table of the top-level `generate_commit_graph.py`:
    every commit row gets the number of commits sharing its date, and then
    only the first row of each date is kept.
 */
module DailyCounts {
  import opened Outcomes
  import opened Calendar
  import opened CommitLog
  import opened Tally

  /** A DataFrame row once the `count` column is attached. */
  datatype DayRow = DayRow(hash: string, date: Date, count: nat)

  /** The `date` column. */
  function Dates(commits: seq<Commit>): (ds: seq<Date>)
    ensures |ds| == |commits|
    ensures forall i :: 0 <= i < |commits| ==> ds[i] == commits[i].date
  {
    seq(|commits|, i requires 0 <= i < |commits| => commits[i].date)
  }

  /** The `date` column of a row table. */
  function RowDates(rows: seq<DayRow>): (ds: seq<Date>)
    ensures |ds| == |rows|
    ensures forall j :: 0 <= j < |rows| ==> ds[j] == rows[j].date
  {
    seq(|rows|, j requires 0 <= j < |rows| => rows[j].date)
  }

  /** Number of commits dated `d`, counted by one scan of the column; it is
      the multiplicity of `d` among all dates. */
  function CountDate(commits: seq<Commit>, d: Date): (n: nat)
    ensures n == multiset(Dates(commits))[d]
  {
    if |commits| == 0 then 0
    else
      assert Dates(commits) == [commits[0].date] + Dates(commits[1..]);
      (if commits[0].date == d then 1 else 0) + CountDate(commits[1..], d)
  }

  /** `df["count"] = df.groupby("date")["date"].transform("count")`: the
      rows keep their order and contents, and each gets the number of
      commits sharing its date. */
  function WithDateCounts(commits: seq<Commit>): (rows: seq<DayRow>)
    ensures |rows| == |commits|
    ensures forall i :: 0 <= i < |commits| ==>
              && rows[i].hash == commits[i].hash
              && rows[i].date == commits[i].date
              && rows[i].count == multiset(Dates(commits))[commits[i].date]
              && rows[i].count >= 1
  {
    seq(|commits|, i requires 0 <= i < |commits| =>
      assert commits[i].date in Dates(commits);
      DayRow(commits[i].hash, commits[i].date, CountDate(commits, commits[i].date)))
  }

  /** Row `k` is the first row of its date. */
  predicate IsFirstOfDate(rows: seq<DayRow>, k: int)
    requires 0 <= k < |rows|
  {
    forall l :: 0 <= l < k ==> rows[l].date != rows[k].date
  }

  /** `df.drop_duplicates(subset=["date"])` (keeping the first row of each
      date). `positions` are the row numbers that survive: increasing, each
      the first row of its date, and every such first row among them. So
      each date of the input appears exactly once in the output, in the
      order of first appearance. */
  method DropDuplicateDates(rows: seq<DayRow>) returns (kept: seq<DayRow>, positions: seq<nat>)
    ensures |kept| == |positions|
    ensures forall j :: 0 <= j < |positions| ==>
              positions[j] < |rows| && kept[j] == rows[positions[j]] && IsFirstOfDate(rows, positions[j])
    ensures forall j, l :: 0 <= j < l < |positions| ==> positions[j] < positions[l]
    ensures forall k :: 0 <= k < |rows| && IsFirstOfDate(rows, k) ==> k in positions
    ensures forall j, l :: 0 <= j < l < |kept| ==> kept[j].date != kept[l].date
  {
    kept, positions := [], [];
    var seen: set<Date> := {};
    var i := 0;
    while i < |rows|
      invariant 0 <= i <= |rows|
      invariant |kept| == |positions|
      invariant forall j :: 0 <= j < |positions| ==>
                  positions[j] < i && kept[j] == rows[positions[j]] && IsFirstOfDate(rows, positions[j])
      invariant forall j, l :: 0 <= j < l < |positions| ==> positions[j] < positions[l]
      invariant forall k :: 0 <= k < i && IsFirstOfDate(rows, k) ==> k in positions
      invariant forall l :: 0 <= l < i ==> rows[l].date in seen
      invariant forall d :: d in seen ==> exists l :: 0 <= l < i && rows[l].date == d
    {
      if rows[i].date !in seen {
        kept, positions := kept + [rows[i]], positions + [i];
        seen := seen + {rows[i].date};
      }
      i := i + 1;
    }
    forall j, l | 0 <= j < l < |kept|
      ensures kept[j].date != kept[l].date
    {
      assert IsFirstOfDate(rows, positions[l]);
      assert positions[j] < positions[l];
    }
  }

  /** The `count` column added up. */
  function TotalCount(rows: seq<DayRow>): nat {
    if |rows| == 0 then 0 else rows[0].count + TotalCount(rows[1..])
  }

  /** The surviving rows account for every commit once: their counts add up
      to the number of commits. */
  lemma KeptCountsCoverAll(commits: seq<Commit>, kept: seq<DayRow>)
    requires forall j, l :: 0 <= j < l < |kept| ==> kept[j].date != kept[l].date
    requires forall j :: 0 <= j < |kept| ==> kept[j].count == multiset(Dates(commits))[kept[j].date]
    requires forall i :: 0 <= i < |commits| ==> commits[i].date in RowDates(kept)
    ensures TotalCount(kept) == |commits|
  {
    var ds := RowDates(kept);
    var all := Dates(commits);
    assert forall i :: 0 <= i < |all| ==> all[i] in ds;
    SumOverCoversAll(ds, multiset(all));
    TotalIsSumOver(kept, ds, multiset(all));
  }

  lemma {:induction false} TotalIsSumOver(rows: seq<DayRow>, ds: seq<Date>, m: multiset<Date>)
    requires |ds| == |rows|
    requires forall j :: 0 <= j < |rows| ==> ds[j] == rows[j].date && rows[j].count == m[rows[j].date]
    ensures TotalCount(rows) == SumOver(ds, m)
  {
    if |rows| > 0 {
      TotalIsSumOver(rows[1..], ds[1..], m);
    }
  }

  /** The coordinates of one plotted point: `date.dt.day`, `date.dt.month`
      and the count. */
  function PlotPoint(r: DayRow): (p: (int, int, nat))
    requires ValidDate(r.date)
    ensures 1 <= p.0 <= 31 && 1 <= p.1 <= 12 && p.2 == r.count
  {
    (r.date.day, r.date.month, r.count)
  }

  /** Commit `p` is the first commit of its date. */
  predicate FirstCommitOfDate(commits: seq<Commit>, p: int)
    requires 0 <= p < |commits|
  {
    forall l :: 0 <= l < p ==> commits[l].date != commits[p].date
  }

  /** Lines 32-33 on the loaded commits. Row `j` is commit `positions[j]`
      (pandas keeps that index label) with the number of commits of its
      date; the positions increase, each is the first commit of its date,
      and every first commit of a date is among them. Hence each date
      appears once, every commit's date is there, and the counts add up
      to the number of commits. */
  method DailyRows(commits: seq<Commit>) returns (kept: seq<DayRow>, positions: seq<nat>)
    ensures |kept| == |positions|
    ensures forall j :: 0 <= j < |positions| ==>
              && positions[j] < |commits|
              && kept[j].hash == commits[positions[j]].hash
              && kept[j].date == commits[positions[j]].date
              && kept[j].count == multiset(Dates(commits))[commits[positions[j]].date]
              && FirstCommitOfDate(commits, positions[j])
    ensures forall j, l :: 0 <= j < l < |positions| ==> positions[j] < positions[l]
    ensures forall k :: 0 <= k < |commits| && FirstCommitOfDate(commits, k) ==> k in positions
    ensures forall j, l :: 0 <= j < l < |kept| ==> kept[j].date != kept[l].date
    ensures forall j :: 0 <= j < |kept| ==>
              && kept[j].count == multiset(Dates(commits))[kept[j].date]
              && kept[j].count >= 1
              && kept[j].date in Dates(commits)
    ensures forall i :: 0 <= i < |commits| ==> commits[i].date in RowDates(kept)
    ensures TotalCount(kept) == |commits|
  {
    var rows := WithDateCounts(commits);
    kept, positions := DropDuplicateDates(rows);
    FirstRowIsFirstCommit(commits, rows);
    EveryDateKept(rows, kept, positions);
    forall j | 0 <= j < |kept|
      ensures kept[j].count == multiset(Dates(commits))[kept[j].date]
      ensures kept[j].count >= 1 && kept[j].date in Dates(commits)
    {
      var p := positions[j];
      assert kept[j] == rows[p] && rows[p].date == commits[p].date;
      assert Dates(commits)[p] == commits[p].date;
    }
    KeptCountsCoverAll(commits, kept);
  }

  /** The rows with counts attached share their dates with the commits, so
      a row is the first of its date exactly when its commit is. */
  lemma FirstRowIsFirstCommit(commits: seq<Commit>, rows: seq<DayRow>)
    requires |rows| == |commits|
    requires forall i :: 0 <= i < |commits| ==> rows[i].date == commits[i].date
    ensures forall k :: 0 <= k < |commits| ==> (IsFirstOfDate(rows, k) <==> FirstCommitOfDate(commits, k))
  {
  }

  /** The per-day script from git's output to the rows it plots: the rows
      of `DailyRows` on the loaded commits, so each date appears once, on
      its first commit, with the number of commits of that date and a
      real calendar date; the counts add up to the number of commits. */
  method DailyTable(stdout: string) returns (r: Result<seq<DayRow>>, positions: seq<nat>)
    ensures r.Ok? <==> LoadCommits(stdout).Ok?
    ensures r.Err? ==> r.error == LoadCommits(stdout).error
    ensures r.Ok? ==>
              var commits := LoadCommits(stdout).value;
              && |r.value| == |positions|
              && (forall j :: 0 <= j < |positions| ==>
                    && positions[j] < |commits|
                    && r.value[j].hash == commits[positions[j]].hash
                    && r.value[j].date == commits[positions[j]].date
                    && r.value[j].count == multiset(Dates(commits))[r.value[j].date]
                    && FirstCommitOfDate(commits, positions[j]))
              && (forall j, l :: 0 <= j < l < |positions| ==> positions[j] < positions[l])
              && (forall k :: 0 <= k < |commits| && FirstCommitOfDate(commits, k) ==> k in positions)
              && (forall j :: 0 <= j < |r.value| ==> r.value[j].count >= 1 && ValidDate(r.value[j].date))
              && TotalCount(r.value) == |commits|
  {
    var loaded := LoadCommits(stdout);
    if loaded.Err? {
      return Err(loaded.error), [];
    }
    var commits := loaded.value;
    var kept;
    kept, positions := DailyRows(commits);
    KeptDatesValid(commits, kept);
    r := Ok(kept);
  }

  /** Rows whose dates come from loaded commits carry real dates. */
  lemma KeptDatesValid(commits: seq<Commit>, kept: seq<DayRow>)
    requires forall i :: 0 <= i < |commits| ==> WellFormedCommit(commits[i])
    requires forall j :: 0 <= j < |kept| ==> kept[j].date in Dates(commits)
    ensures forall j :: 0 <= j < |kept| ==> ValidDate(kept[j].date)
  {
    forall j | 0 <= j < |kept|
      ensures ValidDate(kept[j].date)
    {
      var ds := Dates(commits);
      assert kept[j].date in ds;
      var i :| 0 <= i < |ds| && ds[i] == kept[j].date;
      assert WellFormedCommit(commits[i]);
    }
  }

  /** After dropping duplicates every date of the input is still present. */
  lemma EveryDateKept(rows: seq<DayRow>, kept: seq<DayRow>, positions: seq<nat>)
    requires |kept| == |positions|
    requires forall j :: 0 <= j < |positions| ==> positions[j] < |rows| && kept[j] == rows[positions[j]]
    requires forall k :: 0 <= k < |rows| && IsFirstOfDate(rows, k) ==> k in positions
    ensures forall i :: 0 <= i < |rows| ==> rows[i].date in RowDates(kept)
  {
    forall i | 0 <= i < |rows|
      ensures rows[i].date in RowDates(kept)
    {
      var k := FirstOfDate(rows, i);
      var j :| 0 <= j < |positions| && positions[j] == k;
      assert RowDates(kept)[j] == rows[i].date;
    }
  }

  /** Every row has a first row of its date at or before it. */
  lemma {:induction false} FirstOfDate(rows: seq<DayRow>, i: int) returns (k: int)
    requires 0 <= i < |rows|
    ensures 0 <= k <= i && IsFirstOfDate(rows, k) && rows[k].date == rows[i].date
    decreases i
  {
    if IsFirstOfDate(rows, i) {
      k := i;
    } else {
      var l :| 0 <= l < i && rows[l].date == rows[i].date;
      k := FirstOfDate(rows, l);
    }
  }
}
