# Commit history reshaping, modelled in Dafny

Two Python scripts turn the output of `git log --pretty=format:%H %cd
--date=format:%Y-%m-%d` into tables for 3D scatter plots:

- `Code/Graph/generate_commit_graph.py` (the weekly script) buckets every
  commit by (ISO year, ISO week, weekday), counts the buckets, and spreads
  the counts over the full product of the observed year range, the observed
  week range and the seven weekdays, writing 0 where no commit fell;
- `generate_commit_graph.py` (the daily script) attaches to every commit the
  number of commits sharing its date, then keeps the first row of each date.

Both begin with `get_commit_history` (split the output at newlines, drop
empty lines, split each line at white space and keep its first two tokens)
and `pd.to_datetime` on the date column.

The model is a chain of pure functions, one module per stage:

| module | file | stage |
|---|---|---|
| `Outcomes` | `outcomes.dfy` | the exceptions the scripts can raise, as `Result` |
| `Text` | `text.dfy` | Python's `str.split("\n")` and `str.split()` |
| `Calendar` | `calendar.dfy` | proleptic Gregorian dates, day numbers as CPython's `_ymd2ord`, weekdays |
| `DateText` | `date_text.dfy` | the `YYYY-MM-DD` text, `pd.to_datetime` on it, the Timestamp range |
| `IsoWeek` | `iso_week.dfy` | pandas' `.dt.isocalendar()`, computed with CPython's algorithm, and ISO 8601's Thursday rule |
| `CommitLog` | `commit_log.dfy` | `get_commit_history` and the date conversion |
| `Tally` | `tally.dfy` | adding up multiplicities of a multiset over distinct keys |
| `WeeklyGrid` | `weekly_grid.dfy` | bucketing, `groupby().size()`, `from_product`, `reindex(fill_value=0)` |
| `DailyCounts` | `daily_counts.dfy` | `transform("count")`, `drop_duplicates(subset=["date"])` |

What the model shows, in the scripts' terms:

- the text git prints for a list of commits loads back as exactly those
  commits (`CommitLog.LoadRenderedCommits`), and a malformed line or an
  unreadable date is an error, never a silently wrong row;
- the ISO bucket of a date is the one ISO 8601 defines (the ISO year is the
  year of the Thursday of the date's week). Two different dates never share
  a bucket. 2024-12-30 and 2025-01-02 both fall in week 1 of 2025;
- the weekly grid is ascending, has every product key exactly once and
  (years) x (weeks) x 7 rows. Every observed bucket is in it with its number
  of commits and every other key carries 0, so the counts add up to the
  number of commits;
- the daily table has each date once, on the first commit of that date,
  carrying the number of commits of that date; again the counts add up to
  the number of commits.

The weekly script takes its week range over all years together
(`df["week"].min()` to `df["week"].max()`), not year by year. A history
that crosses a year boundary therefore gets whole years of zero rows, and
it can get week 53 of a year that has only 52 ISO weeks, a bucket no date
falls in. `WeeklyGrid.PhantomWeekGrid` and `WeeklyGrid.PhantomWeek` show
this. Nothing is lost: every observed bucket stays in the grid.

Where the code and its design description disagree, the model follows the
code:

- a non-empty line with fewer than two tokens (including a line of blanks)
  makes the comprehension raise `IndexError`; it is not dropped. It is
  `Err(MissingField(line))` here;
- an empty history makes the weekly script raise, because `range` is
  called on the missing minimum. It does not yield an empty table. It is
  `Err(EmptyHistory)` here. The daily script handles an empty history and
  yields no rows.

## Model

| member | source | states |
|---|---|---|
| Text.Split | Code/Graph/generate_commit_graph.py:26 | `stdout.split("\n")` gives at least one piece, no piece holds a newline, and the pieces joined with newlines are the text again |
| Text.SplitJoin | Code/Graph/generate_commit_graph.py:26 | joining newline-free lines and splitting the result at newlines gives back exactly those lines |
| Text.Words | Code/Graph/generate_commit_graph.py:26 | every token `line.split()` yields is non-empty and free of white space |
| Text.WordsAtSpace | Code/Graph/generate_commit_graph.py:26 | a white-space character splits the line: the tokens are those of the part before it followed by those of the part after it |
| Text.WordsOfWord | Code/Graph/generate_commit_graph.py:26 | a non-empty run without white space is exactly one token |
| Text.WordsKeepEveryNonSpace | Code/Graph/generate_commit_graph.py:26 | `line.split()` loses only white space: the tokens glued together are the line's non-space characters in order |
| Text.WordsOfJoin | Code/Graph/generate_commit_graph.py:26 | tokens joined by single spaces split back into the same tokens |
| CommitLog.NonEmptyLines | Code/Graph/generate_commit_graph.py:26 | the `if line` filter keeps every non-empty line, as often as it occurs, and drops every empty one, in the input's order |
| CommitLog.NonEmptyLinesAppend | Code/Graph/generate_commit_graph.py:26 | filtering two runs of lines one after the other gives the filtered runs one after the other |
| CommitLog.ParseLines | Code/Graph/generate_commit_graph.py:26-27 | succeeds exactly when every non-empty line has two tokens, and then gives one (first token, second token) pair per kept line in order; otherwise the error names a non-empty line with fewer than two tokens |
| CommitLog.GetCommitHistory | generate_commit_graph.py:19-26 | every hash and date it returns is a single white-space-free token |
| CommitLog.ParseRenderedLog | Code/Graph/generate_commit_graph.py:20-27 | the output git prints for a list of (hash, date) pairs parses back to exactly that list |
| CommitLog.ParseRenderedLogTrailingNewline | Code/Graph/generate_commit_graph.py:20-27 | the same output with a final newline after the last line also parses back to exactly that list |
| CommitLog.AllLinesKept | Code/Graph/generate_commit_graph.py:26 | when no line is empty the `if line` filter keeps every line |
| CommitLog.ToDatetime | Code/Graph/generate_commit_graph.py:32 | converting the date column succeeds exactly when every date text parses, keeps order, length and hashes, and gives each row its parsed date; otherwise the error is that of one of the date texts |
| CommitLog.WellFormedCommit | Code/Graph/generate_commit_graph.py:31-32 | a commit the DataFrame can hold has a real date with a year from 1677 to 2262 |
| CommitLog.LoadCommits | generate_commit_graph.py:29-31 | every commit loaded from git's output has a one-token hash and a real date inside the Timestamp range |
| CommitLog.FormattedDateIsWord | generate_commit_graph.py:21 | a `%Y-%m-%d` date is a single token for `line.split()` |
| CommitLog.ToDatetimeOfEntries | generate_commit_graph.py:31 | converting the printed dates of a list of commits gives those commits back |
| CommitLog.LoadRenderedCommits | generate_commit_graph.py:19-31 | round trip of the input stage: git's output for a list of well-formed commits loads back as exactly those commits |
| Calendar.DaysInMonth | Code/Graph/generate_commit_graph.py:33 | every month has 28 to 31 days |
| Calendar.YearStep | Code/Graph/generate_commit_graph.py:33 | consecutive years start one year length apart in day numbers |
| Calendar.MonthStep | Code/Graph/generate_commit_graph.py:33 | each month starts where the previous one ends, and December ends where the year does |
| Calendar.MonthWithinYear | Code/Graph/generate_commit_graph.py:33 | every month lies inside its year |
| Calendar.Ordinal | Code/Graph/generate_commit_graph.py:33 | a date's day number lies inside the day numbers of its year |
| Calendar.NextDayOrdinal | Code/Graph/generate_commit_graph.py:33 | the day after a date has the next day number, so day numbers have no gap and no repeat |
| Calendar.OrdinalInjective | Code/Graph/generate_commit_graph.py:33 | distinct dates have distinct day numbers |
| Calendar.YearStartMonotone | Code/Graph/generate_commit_graph.py:33 | later years start later |
| Calendar.Weekday | Code/Graph/generate_commit_graph.py:35 | `dt.weekday` is between 0 (Monday) and 6 (Sunday) |
| Calendar.WeekdayOfNextDay | Code/Graph/generate_commit_graph.py:35 | weekdays follow each other day by day, Sunday wrapping to Monday |
| DateText.FormatDate | generate_commit_graph.py:43 | `strftime("%Y-%m-%d")` yields ten characters with dashes at 4 and 7 and digits elsewhere |
| DateText.InTimestampRange | Code/Graph/generate_commit_graph.py:32 | a date a pandas Timestamp can hold at midnight has a year from 1677 to 2262 |
| DateText.ParseDate | Code/Graph/generate_commit_graph.py:32 | converting one date text succeeds only on the canonical spelling of a real date inside the Timestamp range; otherwise it is unparsable, or out of bounds when it spells a real date |
| DateText.FormatSpelled | Code/Graph/generate_commit_graph.py:32 | a well-shaped text that spells a real date is that date's `%Y-%m-%d` spelling |
| DateText.ParseFormattedDate | generate_commit_graph.py:43 | round trip: the `%Y-%m-%d` text of a date in range parses back to that date |
| IsoWeek.Week1Monday | Code/Graph/generate_commit_graph.py:33-34 | week 1 of a year starts on the Monday whose Thursday is among the first seven days of the year |
| IsoWeek.WeeksInYear | Code/Graph/generate_commit_graph.py:33-34 | an ISO year has 52 or 53 weeks, and the next ISO year starts that many weeks after it |
| IsoWeek.WeekDateIn | Code/Graph/generate_commit_graph.py:33-34 | a day inside an ISO year has a week within that year's weeks, a weekday 0 to 6, and is that many weeks and days after week 1's Monday |
| IsoWeek.IsoCalendar | Code/Graph/generate_commit_graph.py:33-35 | pandas' `.dt.isocalendar()` of a date, computed with CPython's algorithm: ISO year within one of the calendar year, a day of that ISO year, week from 1 to that year's week count, the same weekday as `dt.weekday`, and `fromisocalendar` gives the date's day number back |
| IsoWeek.IsoWeekDateOf | Code/Graph/generate_commit_graph.py:33-34 | the three branches of CPython's computation, used here for pandas' `.dt.isocalendar()`, (previous year, next year, this year) land in the ISO year that holds the day |
| IsoWeek.ChooseIsoYear | Code/Graph/generate_commit_graph.py:33-34 | each branch's year holds the day |
| IsoWeek.IsoCalendarIsThursdayRule | Code/Graph/generate_commit_graph.py:33-34 | the ISO year of a date is the calendar year of the Thursday of its week, and the week number counts weeks from the one holding the year's first Thursday |
| IsoWeek.IsoCalendarInjective | Code/Graph/generate_commit_graph.py:33-35 | two dates with the same (year, week, weekday) bucket are the same date |
| IsoWeek.YearBoundaryExample | Code/Graph/generate_commit_graph.py:33-34 | 2024-12-30 is Monday of week 1 of 2025 and 2025-01-02 is Thursday of that week |
| IsoWeek.Week53Example | Code/Graph/generate_commit_graph.py:33-34 | 2020-12-31 is in week 53 of 2020, 2021-01-04 starts week 1 of 2021, and 2021 has 52 weeks |
| Tally.SumOverAgrees | Code/Graph/generate_commit_graph.py:49 | a sum of counts over keys only depends on the counts of those keys |
| Tally.SumOverCoversAll | Code/Graph/generate_commit_graph.py:49 | summing a multiset's counts over distinct keys that include all its elements gives its size |
| WeeklyGrid.AscendingIsDistinct | Code/Graph/generate_commit_graph.py:38 | strictly ascending keys hold no key twice |
| WeeklyGrid.ExpandSize | Code/Graph/generate_commit_graph.py:38 | the commits a table stands for number its `count` column's sum |
| WeeklyGrid.LookupCounts | Code/Graph/generate_commit_graph.py:49 | in a sorted table, looking a key up gives the number of commits the table holds for it |
| WeeklyGrid.Insert | Code/Graph/generate_commit_graph.py:38 | adding one commit to a sorted table of positive counts keeps it sorted and positive and adds exactly that commit |
| WeeklyGrid.GroupCount | Code/Graph/generate_commit_graph.py:38 | `groupby(...).size()` gives keys in ascending order with positive counts, holding exactly the commits it was built from |
| WeeklyGrid.GroupCountCounts | Code/Graph/generate_commit_graph.py:38 | every group key appears once, looks up to its number of occurrences (0 if never observed), every observed key has a row, and the counts add up to the number of commits |
| WeeklyGrid.WeekRangeKeys | Code/Graph/generate_commit_graph.py:44-48 | the keys of a run of weeks of one year are ascending, are exactly the keys inside that range, and number 7 per week |
| WeeklyGrid.ConcatAscending | Code/Graph/generate_commit_graph.py:48 | two ascending runs, the first wholly before the second, concatenate to an ascending run |
| WeeklyGrid.Product | Code/Graph/generate_commit_graph.py:44-48 | `from_product([years, weeks, days])` is ascending, holds exactly the keys inside the three ranges, and has (years) x (weeks) x 7 of them |
| WeeklyGrid.Reindex | Code/Graph/generate_commit_graph.py:49 | `reindex(full_index, fill_value=0)` on the sorted grouped table gives exactly the grid keys in grid order, each with the number of commits the table holds for that key, which is 0 exactly when the key is absent from the table |
| WeeklyGrid.Min | Code/Graph/generate_commit_graph.py:41-42 | `min()` of a non-empty column is one of its values and at most every value |
| WeeklyGrid.Max | Code/Graph/generate_commit_graph.py:41-42 | `max()` of a non-empty column is one of its values and at least every value |
| WeeklyGrid.Densify | Code/Graph/generate_commit_graph.py:38-49 | fails exactly on an empty history; otherwise the table is ascending, has exactly the product's keys, (years) x (weeks) x 7 rows, holds every observed bucket (exactly those with a weekday 0 to 6), gives each key its number of commits (0 if unobserved), and its counts add up to the number of commits |
| WeeklyGrid.DensifyFacts | Code/Graph/generate_commit_graph.py:38-49 | the reindexed table's keys are the grid, its counts are the commit multiplicities, and they sum to the number of commits |
| WeeklyGrid.ObservedInGrid | Code/Graph/generate_commit_graph.py:41-48 | an observed bucket lies in the product exactly when its weekday is 0 to 6 |
| WeeklyGrid.TotalIsSumOver | Code/Graph/generate_commit_graph.py:49 | a table whose counts are read off a multiset sums to the multiset's counts over its keys |
| WeeklyGrid.BucketKeys | Code/Graph/generate_commit_graph.py:33-35 | each commit's bucket is its date's ISO calendar entry, with a week from 1 to 53 and the date's weekday |
| WeeklyGrid.CommitGrid | Code/Graph/generate_commit_graph.py:30-49 | the weekly table exists only when the commits load, and its counts add up to the number of commits |
| WeeklyGrid.GridOfCommits | Code/Graph/generate_commit_graph.py:33-49 | on loaded commits the weekly table fails exactly when there are none (the empty minimum), and otherwise its counts add up to the number of commits |
| WeeklyGrid.SingleWeekGrid | Code/Graph/generate_commit_graph.py:41-49 | when every commit falls in one ISO week the grid is that week's seven days, Monday first, each with its number of commits |
| WeeklyGrid.SameDayExample | Code/Graph/generate_commit_graph.py:33-49 | two commits on the same day give one bucket of count 2 in a grid of seven rows |
| WeeklyGrid.SameKeyGrid | Code/Graph/generate_commit_graph.py:38-49 | a bucket observed twice has count 2 in its single-week grid |
| WeeklyGrid.YearBoundaryGrid | Code/Graph/generate_commit_graph.py:38-49 | the buckets of 2024-12-30 and 2025-01-02 give a one-week grid with count 1 on Monday and on Thursday |
| WeeklyGrid.PhantomWeekGrid | Code/Graph/generate_commit_graph.py:41-48 | a history from week 53 of one year to week 1 of the next gets 742 rows, including week 1 of the first year and week 53 of the second |
| WeeklyGrid.PhantomWeek | Code/Graph/generate_commit_graph.py:33-34 | no date falls in week 53 of ISO year 2021 |
| DailyCounts.CountDate | generate_commit_graph.py:32 | the number of commits with a date is its multiplicity among all dates |
| DailyCounts.WithDateCounts | generate_commit_graph.py:32 | `transform("count")` keeps every row in order and gives it the (positive) number of commits sharing its date |
| DailyCounts.DropDuplicateDates | generate_commit_graph.py:33 | `drop_duplicates(subset=["date"])` keeps, in order, exactly the first row of each date, so no date twice |
| DailyCounts.KeptCountsCoverAll | generate_commit_graph.py:32-33 | rows with distinct dates covering every commit date, each carrying its date's multiplicity, have counts adding up to the number of commits |
| DailyCounts.TotalIsSumOver | generate_commit_graph.py:32-33 | rows carrying their dates' multiplicities sum to the multiset's counts over their dates |
| DailyCounts.PlotPoint | generate_commit_graph.py:38-40 | a plotted point has day 1 to 31, month 1 to 12 and the row's count |
| DailyCounts.DailyRows | generate_commit_graph.py:32-33 | row `j` is commit `positions[j]` with its hash, date and the number of commits of that date; positions increase, each is the first commit of its date and every such first commit is there, so each date appears once, and the counts add up to the number of commits |
| DailyCounts.KeptDatesValid | generate_commit_graph.py:31-33 | rows whose dates come from converted commits carry real calendar dates |
| DailyCounts.DailyTable | generate_commit_graph.py:29-33 | the daily table exists exactly when the commits load (else the same error); row `j` is loaded commit `positions[j]` with the number of commits of its date (at least 1); positions increase, are the first commits of their dates and include every such first commit; dates are real, and the counts add up to the number of commits |
| DailyCounts.EveryDateKept | generate_commit_graph.py:33 | after dropping duplicates every date of the input is still present |
| DailyCounts.FirstOfDate | generate_commit_graph.py:33 | every row has a first row of its date at or before it |

## Left out

- Running `git log` (both scripts, the weekly one with `--since=1.year`):
  its standard output is the parameter `stdout`. The one-year window is
  git's filter and is not modelled.
- The plots and their files (`px.scatter_3d`, `write_image`, `write_html`,
  `os.makedirs`), the hover labels built from strings other than the date,
  and the `print` calls: output only, no effect on the tables.
- The commented-out matplotlib script held in a string at
  `generate_commit_graph.py:54-105`: it is dead code.
- `Code/Rotation_Cube/Cube.py` and `generate_commit_fdf.py`: they are not
  part of this model.
- DateText.ParseDate: accepts only the `YYYY-MM-DD` spelling. `pd.to_datetime`
  infers other formats too, but git with `--date=format:%Y-%m-%d` never
  prints them.
- The `hash` column is carried along but never checked for being
  hexadecimal. The scripts do not check it either.
- pandas' nullable `UInt32` type for the ISO columns and the `MultiIndex`
  object are not modelled. Keys are `WeekDate` values and tables are
  sequences of rows in index order.
- WeeklyGrid.Densify: an observed bucket with a weekday outside 0 to 6 would
  be dropped by the reindex. The contract says so. Buckets built from dates
  never have one (`WeeklyGrid.BucketKeys`).
- Dates before year 1 or after 9999 cannot occur: the Timestamp range is
  checked before any calendar arithmetic.
