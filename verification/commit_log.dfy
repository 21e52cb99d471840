/** `get_commit_history` and the `pd.to_datetime` step that follows it, in
    both scripts: the text git prints becomes a sequence of commits with
    calendar dates.

    Running `git log` is outside the model: its standard output is the
    parameter `stdout`.
 */
module CommitLog {
  import opened Outcomes
  import opened Text
  import opened Calendar
  import opened DateText

  /** One `(commit[0], commit[1])` pair: hash and date, both still text. */
  datatype LogEntry = LogEntry(hash: string, date: string)

  /** One DataFrame row after `pd.to_datetime`. */
  datatype Commit = Commit(hash: string, date: Date)

  /** The lines the comprehension keeps (`if line`): the non-empty ones, in
      order. A line of spaces only is not empty. */
  function NonEmptyLines(lines: seq<string>): (kept: seq<string>)
    ensures |kept| <= |lines|
    ensures forall i :: 0 <= i < |kept| ==> kept[i] != "" && kept[i] in lines
    ensures multiset(kept) == multiset(lines)["" := 0]
  {
    if |lines| == 0 then []
    else
      assert lines == [lines[0]] + lines[1..];
      if lines[0] == "" then NonEmptyLines(lines[1..])
      else [lines[0]] + NonEmptyLines(lines[1..])
  }

  /** The filter works line by line: filtering two runs of lines one after
      the other is filtering each run, so the kept lines keep their order. */
  lemma {:induction false} NonEmptyLinesAppend(a: seq<string>, b: seq<string>)
    ensures NonEmptyLines(a + b) == NonEmptyLines(a) + NonEmptyLines(b)
  {
    if |a| == 0 {
      assert a + b == b;
    } else {
      var ab := a + b;
      assert ab[0] == a[0] && ab[1..] == a[1..] + b;
      NonEmptyLinesAppend(a[1..], b);
      if a[0] == "" {
        assert NonEmptyLines(ab) == NonEmptyLines(a[1..] + b);
      } else {
        assert NonEmptyLines(ab) == [a[0]] + NonEmptyLines(a[1..] + b);
        assert NonEmptyLines(a) == [a[0]] + NonEmptyLines(a[1..]);
      }
    }
  }

  /** A line the second comprehension can index: `line.split()` has at least
      two tokens. */
  predicate HasTwoFields(line: string) {
    |Words(line)| >= 2
  }

  /** The pair built from one kept line. */
  function EntryOf(line: string): LogEntry
    requires HasTwoFields(line)
  {
    var w := Words(line);
    LogEntry(w[0], w[1])
  }

  /** Both comprehensions of `get_commit_history` over the lines of the
      output. Empty lines are skipped; every other line yields one pair made
      of its first two tokens (further tokens are ignored), in line order;
      a kept line with fewer than two tokens raises IndexError. */
  function ParseLines(lines: seq<string>): (r: Result<seq<LogEntry>>)
    ensures r.Ok? <==> forall i :: 0 <= i < |lines| && lines[i] != "" ==> HasTwoFields(lines[i])
    ensures r.Ok? ==>
              var kept := NonEmptyLines(lines);
              && |r.value| == |kept|
              && forall i :: 0 <= i < |kept| ==> HasTwoFields(kept[i]) && r.value[i] == EntryOf(kept[i])
    ensures r.Err? ==> exists i :: 0 <= i < |lines| && lines[i] != "" && !HasTwoFields(lines[i])
                                   && r.error == MissingField(lines[i])
  {
    if |lines| == 0 then Ok([])
    else if lines[0] == "" then
      var r := ParseLines(lines[1..]);
      if r.Err? then
        var i :| 0 <= i < |lines[1..]| && lines[1..][i] != "" && !HasTwoFields(lines[1..][i])
                 && r.error == MissingField(lines[1..][i]);
        assert lines[i + 1] == lines[1..][i];
        r
      else
        r
    else if !HasTwoFields(lines[0]) then Err(MissingField(lines[0]))
    else
      var r := ParseLines(lines[1..]);
      if r.Err? then
        var i :| 0 <= i < |lines[1..]| && lines[1..][i] != "" && !HasTwoFields(lines[1..][i])
                 && r.error == MissingField(lines[1..][i]);
        assert lines[i + 1] == lines[1..][i];
        Err(r.error)
      else
        Ok([EntryOf(lines[0])] + r.value)
  }

  /** `get_commit_history` given what git printed: split at newlines, then
      parse the lines. */
  function GetCommitHistory(stdout: string): (r: Result<seq<LogEntry>>)
    ensures r.Ok? ==> forall i :: 0 <= i < |r.value| ==> IsWord(r.value[i].hash) && IsWord(r.value[i].date)
  {
    var r := ParseLines(Split(stdout, '\n'));
    if r.Ok? then
      var kept := NonEmptyLines(Split(stdout, '\n'));
      assert forall i :: 0 <= i < |r.value| ==> r.value[i] == EntryOf(kept[i]);
      r
    else r
  }

  /** The line git prints for one commit with `--pretty=format:%H %cd`. */
  function EntryLine(e: LogEntry): string {
    Join([e.hash, e.date], ' ')
  }

  /** The whole output: one line per commit, separated by newlines. */
  function RenderLog(entries: seq<LogEntry>): string {
    Join(LogLines(entries), '\n')
  }

  function LogLines(entries: seq<LogEntry>): (lines: seq<string>)
    ensures |lines| == |entries|
    ensures forall i :: 0 <= i < |entries| ==> lines[i] == EntryLine(entries[i])
  {
    if |entries| == 0 then [] else [EntryLine(entries[0])] + LogLines(entries[1..])
  }

  predicate WellFormedEntry(e: LogEntry) {
    IsWord(e.hash) && IsWord(e.date)
  }

  /** Round trip: the output git prints for a list of commits is parsed back
      into exactly that list of pairs. */
  lemma ParseRenderedLog(entries: seq<LogEntry>)
    requires forall i :: 0 <= i < |entries| ==> WellFormedEntry(entries[i])
    ensures GetCommitHistory(RenderLog(entries)) == Ok(entries)
  {
    var lines := LogLines(entries);
    if |entries| == 0 {
      assert RenderLog(entries) == "";
      assert Split("", '\n') == [""];
    } else {
      RenderedLines(entries);
      SplitJoin(lines, '\n');
      AllLinesKept(lines);
      var r := ParseLines(lines);
      assert r.Ok?;
      assert r.value == entries;
    }
  }

  /** The same when the output ends with a newline: the empty last piece
      is skipped by the `if line` filter. */
  lemma ParseRenderedLogTrailingNewline(entries: seq<LogEntry>)
    requires forall i :: 0 <= i < |entries| ==> WellFormedEntry(entries[i])
    ensures GetCommitHistory(RenderLog(entries) + "\n") == Ok(entries)
  {
    var s := RenderLog(entries) + "\n";
    if |entries| == 0 {
      assert s == "" + ['\n'] + "";
      SplitAfterPiece("", "", '\n');
      assert Split("", '\n') == [""];
      assert ParseLines(Split(s, '\n')) == ParseLines(["", ""]) == Ok([]);
    } else {
      var all := SplitWithTrailingNewline(entries);
      TrailingNewlineLines(entries, all);
      ParseLogLines(all, entries);
    }
  }

  /** Output ending in a newline splits into the printed lines and one
      empty piece. */
  lemma SplitWithTrailingNewline(entries: seq<LogEntry>) returns (all: seq<string>)
    requires |entries| > 0
    requires forall i :: 0 <= i < |entries| ==> WellFormedEntry(entries[i])
    ensures all == LogLines(entries) + [""]
    ensures Split(RenderLog(entries) + "\n", '\n') == all
  {
    var lines := LogLines(entries);
    all := lines + [""];
    RenderedLines(entries);
    JoinSnoc(lines, "", '\n');
    assert Join(all, '\n') == RenderLog(entries) + "\n";
    assert forall i :: 0 <= i < |all| ==> '\n' !in all[i];
    SplitJoin(all, '\n');
  }

  /** The printed lines followed by an empty piece keep exactly the printed
      lines, each with two tokens. */
  lemma TrailingNewlineLines(entries: seq<LogEntry>, all: seq<string>)
    requires forall i :: 0 <= i < |entries| ==> WellFormedEntry(entries[i])
    requires all == LogLines(entries) + [""]
    ensures NonEmptyLines(all) == LogLines(entries)
    ensures forall i :: 0 <= i < |all| && all[i] != "" ==> HasTwoFields(all[i])
  {
    RenderedLines(entries);
    TrailingNewlineKept(LogLines(entries));
    TrailingFields(entries, all);
  }

  /** Every non-empty piece of the printed lines plus an empty piece has two tokens. */
  lemma TrailingFields(entries: seq<LogEntry>, all: seq<string>)
    requires forall i :: 0 <= i < |entries| ==> WellFormedEntry(entries[i])
    requires all == LogLines(entries) + [""]
    ensures forall i :: 0 <= i < |all| && all[i] != "" ==> HasTwoFields(all[i])
  {
    var lines := LogLines(entries);
    RenderedLines(entries);
    forall i | 0 <= i < |all| && all[i] != ""
      ensures HasTwoFields(all[i])
    {
      assert i < |lines| && all[i] == lines[i];
    }
  }

  /** Non-empty lines followed by an empty one keep just those lines. */
  lemma TrailingNewlineKept(lines: seq<string>)
    requires forall i :: 0 <= i < |lines| ==> lines[i] != ""
    ensures NonEmptyLines(lines + [""]) == lines
  {
    AllLinesKept(lines);
    NonEmptyLinesAppend(lines, [""]);
    assert NonEmptyLines([""]) == [];
  }

  /** Lines whose non-empty ones are the printed lines of `entries` parse
      back to `entries`. */
  lemma ParseLogLines(lines: seq<string>, entries: seq<LogEntry>)
    requires forall i :: 0 <= i < |entries| ==> WellFormedEntry(entries[i])
    requires NonEmptyLines(lines) == LogLines(entries)
    requires forall i :: 0 <= i < |lines| && lines[i] != "" ==> HasTwoFields(lines[i])
    ensures ParseLines(lines) == Ok(entries)
  {
    RenderedLines(entries);
    var r := ParseLines(lines);
    var kept := NonEmptyLines(lines);
    assert r.Ok?;
    assert |r.value| == |kept| == |entries|;
    forall i | 0 <= i < |entries|
      ensures r.value[i] == entries[i]
    {
      assert r.value[i] == EntryOf(kept[i]);
    }
    assert r.value == entries;
  }

  /** Each printed line holds no newline and splits into its hash and its
      date. */
  lemma RenderedLines(entries: seq<LogEntry>)
    requires forall i :: 0 <= i < |entries| ==> WellFormedEntry(entries[i])
    ensures var lines := LogLines(entries);
            forall i :: 0 <= i < |lines| ==>
              && '\n' !in lines[i]
              && lines[i] != "" && Words(lines[i]) == [entries[i].hash, entries[i].date]
  {
    var lines := LogLines(entries);
    forall i | 0 <= i < |lines|
      ensures '\n' !in lines[i]
      ensures lines[i] != "" && Words(lines[i]) == [entries[i].hash, entries[i].date]
    {
      var e := entries[i];
      WordsOfJoin([e.hash, e.date]);
      assert lines[i] == e.hash + [' '] + e.date;
    }
  }

  /** Lines that are all non-empty are all kept. */
  lemma {:induction false} AllLinesKept(lines: seq<string>)
    requires forall i :: 0 <= i < |lines| ==> lines[i] != ""
    ensures NonEmptyLines(lines) == lines
  {
    if |lines| > 0 {
      AllLinesKept(lines[1..]);
      assert [lines[0]] + lines[1..] == lines;
    }
  }

  /** `pd.to_datetime` on the whole `date` column: every text must parse,
      else the first one that does not raises; the hashes ride along. */
  function ToDatetime(entries: seq<LogEntry>): (r: Result<seq<Commit>>)
    ensures r.Ok? <==> forall i :: 0 <= i < |entries| ==> ParseDate(entries[i].date).Ok?
    ensures r.Ok? ==>
              && |r.value| == |entries|
              && forall i :: 0 <= i < |entries| ==>
                   && r.value[i].hash == entries[i].hash
                   && ParseDate(entries[i].date) == Ok(r.value[i].date)
    ensures r.Err? ==> exists i :: 0 <= i < |entries| && ParseDate(entries[i].date) == Err(r.error)
  {
    if |entries| == 0 then Ok([])
    else
      var head := ParseDate(entries[0].date);
      if head.Err? then Err(head.error)
      else
        var rest := ToDatetime(entries[1..]);
        if rest.Err? then
          var i :| 0 <= i < |entries[1..]| && ParseDate(entries[1..][i].date) == Err(rest.error);
          assert entries[i + 1] == entries[1..][i];
          Err(rest.error)
        else
          assert forall i :: 1 <= i < |entries| ==> entries[i] == entries[1..][i - 1];
          Ok([Commit(entries[0].hash, head.value)] + rest.value)
  }

  /** A commit as the DataFrame can hold it: a hash token and a real date
      inside the Timestamp range. */
  predicate WellFormedCommit(c: Commit)
    ensures WellFormedCommit(c) ==> ValidDate(c.date) && 1677 <= c.date.year <= 2262
  {
    IsWord(c.hash) && ValidDate(c.date) && InTimestampRange(c.date)
  }

  /** The commits of one run: the history parsed and its dates converted.
      Every commit that comes out is well formed. */
  function LoadCommits(stdout: string): (r: Result<seq<Commit>>)
    ensures r.Ok? ==> forall i :: 0 <= i < |r.value| ==> WellFormedCommit(r.value[i])
  {
    var entries :- GetCommitHistory(stdout);
    ToDatetime(entries)
  }

  /** The pair git prints for one commit, its date spelled `YYYY-MM-DD`. */
  function EntryOfCommit(c: Commit): LogEntry
    requires WellFormedCommit(c)
  {
    LogEntry(c.hash, FormatDate(c.date))
  }

  /** The pairs git prints for a list of commits. */
  function EntriesOf(commits: seq<Commit>): (entries: seq<LogEntry>)
    requires forall i :: 0 <= i < |commits| ==> WellFormedCommit(commits[i])
    ensures |entries| == |commits|
    ensures forall i :: 0 <= i < |commits| ==> entries[i] == EntryOfCommit(commits[i])
  {
    if |commits| == 0 then []
    else [EntryOfCommit(commits[0])] + EntriesOf(commits[1..])
  }

  /** A formatted date is a single token. */
  lemma FormattedDateIsWord(d: Date)
    requires ValidDate(d) && 0 <= d.year <= 9999
    ensures IsWord(FormatDate(d))
  {
  }

  /** Converting the printed dates gives back the commits. */
  lemma {:induction false} ToDatetimeOfEntries(commits: seq<Commit>)
    requires forall i :: 0 <= i < |commits| ==> WellFormedCommit(commits[i])
    ensures ToDatetime(EntriesOf(commits)) == Ok(commits)
  {
    if |commits| > 0 {
      var entries := EntriesOf(commits);
      ParseFormattedDate(commits[0].date);
      ToDatetimeOfEntries(commits[1..]);
      assert entries[1..] == EntriesOf(commits[1..]);
      assert [commits[0]] + commits[1..] == commits;
    }
  }

  /** Round trip for the whole input stage: git's output for a list of
      well-formed commits loads back as exactly those commits. */
  lemma LoadRenderedCommits(commits: seq<Commit>)
    requires forall i :: 0 <= i < |commits| ==> WellFormedCommit(commits[i])
    ensures LoadCommits(RenderLog(EntriesOf(commits))) == Ok(commits)
  {
    var entries := EntriesOf(commits);
    forall i | 0 <= i < |entries|
      ensures WellFormedEntry(entries[i])
    {
      FormattedDateIsWord(commits[i].date);
    }
    ParseRenderedLog(entries);
    ToDatetimeOfEntries(commits);
  }
}
