/** The runner of main.cpp: the registered days are run in order; a day
    runs only when it matches the configured year and day, its input comes
    from its cache file (downloaded first when missing), a day whose input
    cannot be read is skipped, and each selected part appends one result. */
module Runner {
  import opened Optional
  import opened Utils
  import opened Decimal
  import opened Files
  import opened Fetcher
  import opened Cli

  /** One row of the result table (the time column is not modelled). */
  datatype DayResult = DayResult(year: int, day: int, part: int, answer: string)

  /** A registered solution: runDay(year, day, part1, part2). */
  datatype Entry = Entry(year: int, day: int, part1: string -> string, part2: string -> string)

  /** What the outside world answers: the HTTP reply for a day's input and
      whether a path can be opened for writing. */
  datatype World = World(reply: (int, int) -> Reply, canWrite: string -> bool)

  /** The cache file of a day's input. */
  function InputPath(year: int, day: int): (r: string) {
    "src/" + IntToString(year) + "/day_" + IntToString(day) + "/tests/input.txt"
  }

  predicate Selected(c: Config, year: int, day: int) {
    c.year == year && (c.day == -1 || c.day == day)
  }

  /** The results runDay appends for a day that ran on `input`. */
  function PartResults(c: Config, e: Entry, input: string): (r: seq<DayResult>) {
    (if c.part == -1 || c.part == 1 then [DayResult(e.year, e.day, 1, e.part1(input))] else [])
    + (if c.part == -1 || c.part == 2 then [DayResult(e.year, e.day, 2, e.part2(input))] else [])
  }

  /** The files and the results collected so far. */
  datatype RunState = RunState(files: map<string, string>, results: seq<DayResult>)

  /** runDay for entry `e`. */
  function DayStep(c: Config, st: RunState, e: Entry, w: World): (r: RunState) {
    if !Selected(c, e.year, e.day) then st
    else
      var path := InputPath(e.year, e.day);
      var files := FetchEffect(st.files, path, w.reply(e.year, e.day), w.canWrite(path));
      match Lookup(files, path)
      case None => RunState(files, st.results)
      case Some(input) => RunState(files, st.results + PartResults(c, e, input))
  }

  /** The runDay calls for `entries`, in order. */
  function RunFrom(c: Config, st: RunState, entries: seq<Entry>, w: World): (r: RunState)
    decreases |entries|
  {
    if entries == [] then st else RunFrom(c, DayStep(c, st, entries[0], w), entries[1..], w)
  }

  // ---------------------------------------------------------------- the harness

  class Harness {
    const config: Config
    const fs: FileSystem
    var results: seq<DayResult>

    constructor (config: Config, fs: FileSystem)
      ensures this.config == config && this.fs == fs && results == []
    {
      this.config := config;
      this.fs := fs;
      results := [];
    }

    /** The runDay lambda of main: filter on year and day, fetch the input
        when its file is missing (ignoring the outcome), read it or skip the
        day, and append part 1 and then part 2 as the part filter allows. */
    method RunDay(e: Entry, w: World)
      modifies this, fs
      ensures RunState(fs.files, results) == DayStep(config, RunState(old(fs.files), old(results)), e, w)
      ensures !Selected(config, e.year, e.day) ==> fs.files == old(fs.files) && results == old(results)
    {
      if config.year != e.year {
        return;
      }
      if config.day != -1 && config.day != e.day {
        return;
      }
      var inputPath := "src/" + IntToString(e.year) + "/day_" + IntToString(e.day) + "/tests/input.txt";
      var _, _, _ := FetchInput(fs, e.year, e.day, inputPath, w.reply(e.year, e.day), w.canWrite(inputPath));
      var input := fs.Read(inputPath);
      if input.None? {
        return;
      }
      ghost var before := results;
      var first: seq<DayResult> := [];
      if config.part == -1 || config.part == 1 {
        results := results + [DayResult(e.year, e.day, 1, e.part1(input.value))];
        first := [DayResult(e.year, e.day, 1, e.part1(input.value))];
      }
      if config.part == -1 || config.part == 2 {
        AppendAssoc(before, first, [DayResult(e.year, e.day, 2, e.part2(input.value))]);
        results := results + [DayResult(e.year, e.day, 2, e.part2(input.value))];
      } else {
        AppendEmpty(first);
      }
    }

    /** The sequence of runDay calls in main. */
    method RunAll(registry: seq<Entry>, w: World)
      modifies this, fs
      ensures RunState(fs.files, results) == RunFrom(config, RunState(old(fs.files), old(results)), registry, w)
    {
      var i := 0;
      while i < |registry|
        invariant 0 <= i <= |registry|
        invariant RunFrom(config, RunState(fs.files, results), registry[i..], w)
          == RunFrom(config, RunState(old(fs.files), old(results)), registry, w)
        decreases |registry| - i
      {
        RunFromAt(config, RunState(fs.files, results), registry, i, w);
        RunDay(registry[i], w);
        i := i + 1;
      }
      assert registry[i..] == [];
    }
  }

  /** RunFrom on the entries from index `i` on. */
  lemma RunFromAt(c: Config, st: RunState, entries: seq<Entry>, i: nat, w: World)
    requires i < |entries|
    ensures RunFrom(c, st, entries[i..], w) == RunFrom(c, DayStep(c, st, entries[i], w), entries[i + 1..], w)
  {
    assert entries[i..][0] == entries[i];
    assert entries[i..][1..] == entries[i + 1..];
  }

  /** What main prints after the banner. */
  datatype Report = HelpText | NothingRan | Table(rows: seq<DayResult>)

  /** How the program ends: with an exit status and a report, or by the
      exception std::stoi threw on `value`. */
  datatype Outcome = Exit(code: int, report: Report) | Terminated(value: string)

  /** main: parse the arguments; on help print it and exit; otherwise run
      every registered day and print the table, or the notice that nothing
      ran when no result was collected. */
  method RunProgram(args: seq<string>, stoi: string -> Option<int>, registry: seq<Entry>, fs: FileSystem, w: World)
    returns (outcome: Outcome)
    modifies fs
    ensures var p := ParseFrom(DefaultConfig, args, stoi);
      && (p.Aborted? ==> outcome == Terminated(p.value) && fs.files == old(fs.files))
      && (p.Parsed? && p.config.showHelp ==> outcome == Exit(1, HelpText) && fs.files == old(fs.files))
      && (p.Parsed? && !p.config.showHelp ==>
            var final := RunFrom(p.config, RunState(old(fs.files), []), registry, w);
            && fs.files == final.files
            && outcome == Exit(0, if final.results == [] then NothingRan else Table(final.results)))
  {
    var p := ParseArgs(args, stoi);
    if p.Aborted? {
      return Terminated(p.value);
    }
    var config := p.config;
    if config.showHelp {
      HelpExitsOne(args, stoi);
      return Exit(ExitCode(config, |args| + 1), HelpText);
    }
    var harness := new Harness(config, fs);
    harness.RunAll(registry, w);
    if harness.results == [] {
      return Exit(0, NothingRan);
    }
    return Exit(0, Table(harness.results));
  }

  // ---------------------------------------------------------------- properties

  /** The results a day contributes, by the part filter: both parts in
      order, one of them, or none for any other part value. */
  lemma PartSelection(c: Config, e: Entry, input: string)
    ensures var r1, r2 := DayResult(e.year, e.day, 1, e.part1(input)), DayResult(e.year, e.day, 2, e.part2(input));
      && (c.part == -1 ==> PartResults(c, e, input) == [r1, r2])
      && (c.part == 1 ==> PartResults(c, e, input) == [r1])
      && (c.part == 2 ==> PartResults(c, e, input) == [r2])
      && (c.part != -1 && c.part != 1 && c.part != 2 ==> PartResults(c, e, input) == [])
  {
    var r1, r2 := DayResult(e.year, e.day, 1, e.part1(input)), DayResult(e.year, e.day, 2, e.part2(input));
    if c.part == 1 {
      AppendEmpty([r1]);
    } else if c.part == 2 {
      AppendEmpty([r2]);
    } else if c.part != -1 {
      var none: seq<DayResult> := [];
      AppendEmpty(none);
    }
  }

  /** A result that fits the configuration: its year, its day unless all
      days run, part 1 or 2, and the chosen part unless both run. */
  predicate Fits(c: Config, r: DayResult) {
    && r.year == c.year
    && (c.day == -1 || r.day == c.day)
    && (r.part == 1 || r.part == 2)
    && (c.part == -1 || r.part == c.part)
  }

  /** The results that fit the configuration. */
  predicate AllFit(c: Config, rs: seq<DayResult>) {
    forall k :: 0 <= k < |rs| ==> Fits(c, rs[k])
  }

  lemma AllFitAppend(c: Config, a: seq<DayResult>, b: seq<DayResult>)
    requires AllFit(c, a) && AllFit(c, b)
    ensures AllFit(c, a + b)
  {
    assert forall k :: |a| <= k < |a + b| ==> (a + b)[k] == b[k - |a|];
  }

  /** One day only appends results that fit, and its input is the file at
      its path once the fetch is done. */
  lemma DayStepAppends(c: Config, st: RunState, e: Entry, w: World)
    ensures var after := DayStep(c, st, e, w);
      exists more :: after.results == st.results + more && AllFit(c, more)
  {
    var after := DayStep(c, st, e, w);
    if !Selected(c, e.year, e.day) {
      AppendEmpty(st.results);
      assert after.results == st.results + [];
    } else {
      var path := InputPath(e.year, e.day);
      var files := FetchEffect(st.files, path, w.reply(e.year, e.day), w.canWrite(path));
      if path in files {
        var more := PartResults(c, e, files[path]);
        PartSelection(c, e, files[path]);
        assert after.results == st.results + more;
      } else {
        AppendEmpty(st.results);
        assert after.results == st.results + [];
      }
    }
  }

  /** Every collected result fits the configuration, and the results
      already there stay in front. */
  lemma {:induction false} RunResultsFit(c: Config, st: RunState, entries: seq<Entry>, w: World)
    ensures var r := RunFrom(c, st, entries, w).results;
      |st.results| <= |r| && r[..|st.results|] == st.results
      && forall k :: |st.results| <= k < |r| ==> Fits(c, r[k])
    decreases |entries|
  {
    if entries == [] {
      assert st.results[..|st.results|] == st.results;
    } else {
      var mid := DayStep(c, st, entries[0], w);
      DayStepAppends(c, st, entries[0], w);
      var more :| mid.results == st.results + more && AllFit(c, more);
      RunResultsFit(c, mid, entries[1..], w);
      var r := RunFrom(c, st, entries, w).results;
      assert r[..|mid.results|] == mid.results;
      assert r[..|st.results|] == mid.results[..|st.results|];
      assert forall k :: |st.results| <= k < |mid.results| ==> r[k] == mid.results[k] == more[k - |st.results|];
    }
  }

  /** A run over `a` and then `b` is the run over `a + b`: results come in
      registration order. */
  lemma {:induction false} RunConcat(c: Config, st: RunState, a: seq<Entry>, b: seq<Entry>, w: World)
    ensures RunFrom(c, st, a + b, w) == RunFrom(c, RunFrom(c, st, a, w), b, w)
    decreases |a|
  {
    if a == [] {
      AppendEmpty(b);
    } else {
      assert (a + b)[0] == a[0];
      assert (a + b)[1..] == a[1..] + b;
      RunConcat(c, DayStep(c, st, a[0], w), a[1..], b, w);
    }
  }

  /** Nothing changes when no registered day is selected. */
  lemma {:induction false} NothingSelected(c: Config, st: RunState, entries: seq<Entry>, w: World)
    requires forall i :: 0 <= i < |entries| ==> !Selected(c, entries[i].year, entries[i].day)
    ensures RunFrom(c, st, entries, w) == st
    decreases |entries|
  {
    if entries != [] {
      assert forall i :: 0 <= i < |entries| - 1 ==> entries[1..][i] == entries[i + 1];
      NothingSelected(c, st, entries[1..], w);
    }
  }

  /** A file that exists is never changed or removed by a run, and a run
      only adds the cache files of selected days. */
  lemma {:induction false} RunKeepsFiles(c: Config, st: RunState, entries: seq<Entry>, w: World)
    ensures var f := RunFrom(c, st, entries, w).files;
      && (forall p :: p in st.files ==> p in f && f[p] == st.files[p])
      && (forall p :: p in f && p !in st.files ==>
            exists i :: 0 <= i < |entries| && Selected(c, entries[i].year, entries[i].day)
                        && p == InputPath(entries[i].year, entries[i].day))
    decreases |entries|
  {
    if entries != [] {
      var e := entries[0];
      var mid := DayStep(c, st, e, w);
      var path := InputPath(e.year, e.day);
      FetchKeepsFiles(st.files, path, w.reply(e.year, e.day), w.canWrite(path));
      RunKeepsFiles(c, mid, entries[1..], w);
      var f := RunFrom(c, st, entries, w).files;
      forall p | p in f && p !in st.files
        ensures exists i :: 0 <= i < |entries| && Selected(c, entries[i].year, entries[i].day)
                            && p == InputPath(entries[i].year, entries[i].day)
      {
        if p in mid.files {
          assert Selected(c, e.year, e.day) && p == path;
        } else {
          var i :| 0 <= i < |entries| - 1 && Selected(c, entries[1..][i].year, entries[1..][i].day)
                   && p == InputPath(entries[1..][i].year, entries[1..][i].day);
          assert entries[1..][i] == entries[i + 1];
        }
      }
    }
  }

  /** A selected day whose cache file exists runs on that file as it is:
      nothing is downloaded and the file system stays as it was. */
  lemma CachedInputUsed(c: Config, st: RunState, e: Entry, w: World)
    requires Selected(c, e.year, e.day) && InputPath(e.year, e.day) in st.files
    ensures DayStep(c, st, e, w)
      == RunState(st.files, st.results + PartResults(c, e, st.files[InputPath(e.year, e.day)]))
  {
  }

  /** A selected day with a part filter of -1, 1 or 2 adds no result
      exactly when its input file cannot be read after the fetch. */
  lemma SkippedExactlyWhenUnreadable(c: Config, st: RunState, e: Entry, w: World)
    requires Selected(c, e.year, e.day) && (c.part == -1 || c.part == 1 || c.part == 2)
    ensures var path := InputPath(e.year, e.day);
      var files := FetchEffect(st.files, path, w.reply(e.year, e.day), w.canWrite(path));
      DayStep(c, st, e, w).results == st.results <==> path !in files
  {
    var path := InputPath(e.year, e.day);
    var files := FetchEffect(st.files, path, w.reply(e.year, e.day), w.canWrite(path));
    if path in files {
      PartSelection(c, e, files[path]);
      assert |DayStep(c, st, e, w).results| > |st.results|;
    }
  }

  /** The cache path as fixed text, the year, and a tail starting with '/'. */
  lemma InputPathShape(year: int, day: int)
    ensures InputPath(year, day)
      == "src/" + (IntToString(year) + ("/day_" + (IntToString(day) + "/tests/input.txt")))
  {
    var a, b := IntToString(year), IntToString(day);
    AppendAssoc("src/" + a + "/day_", b, "/tests/input.txt");
    AppendAssoc("src/" + a, "/day_", b + "/tests/input.txt");
    AppendAssoc("src/", a, "/day_" + (b + "/tests/input.txt"));
  }

  /** Different days have different cache files. */
  lemma InputPathInjective(y1: int, d1: int, y2: int, d2: int)
    requires InputPath(y1, d1) == InputPath(y2, d2)
    ensures y1 == y2 && d1 == d2
  {
    InputPathShape(y1, d1);
    InputPathShape(y2, d2);
    var t1 := "/day_" + (IntToString(d1) + "/tests/input.txt");
    var t2 := "/day_" + (IntToString(d2) + "/tests/input.txt");
    AppendCancel("src/", IntToString(y1) + t1, IntToString(y2) + t2);
    NumberBeforeSlash(y1, t1, y2, t2);
    AppendCancel("/day_", IntToString(d1) + "/tests/input.txt", IntToString(d2) + "/tests/input.txt");
    NumberBeforeSlash(d1, "/tests/input.txt", d2, "/tests/input.txt");
  }
}
