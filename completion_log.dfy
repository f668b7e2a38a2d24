/**
 * The completion log `transcription_log.json`: a JSON array of recording names,
 * read whole by `already_processed` and read, appended to and rewritten whole by
 * `update_log`.
 */
module CompletionLog {

  /** The log's file name in the vault root. */
  const LogName: string := "transcription_log.json"

  /**
   * The log file: absent, present but not readable as a list of names (the JSON
   * cannot be parsed), or a stored list of recording names, duplicates allowed.
   */
  datatype LogFile = Missing | Unreadable | Stored(entries: seq<string>)

  /** The names a read of the log yields; a missing or unreadable log reads as empty. */
  function Entries(log: LogFile): seq<string> {
    if log.Stored? then log.entries else []
  }

  /**
   * `already_processed(log_path, filename)`: membership in the stored list; false
   * when the log is missing, and false when reading it fails.
   */
  function AlreadyProcessed(log: LogFile, filename: string): (b: bool)
    ensures b <==> filename in Entries(log)
    ensures !log.Stored? ==> !b
  {
    match log
    case Stored(entries) => filename in entries
    case _ => false
  }

  /**
   * The log after `update_log(log_path, filename)`: the name appended to what was read
   * (nothing, when the log was missing). When the log cannot be parsed, `json.load`
   * raises, the error is reported, and the file is left as it was.
   */
  function Appended(log: LogFile, filename: string): LogFile {
    match log
    case Missing => Stored([filename])
    case Stored(entries) => Stored(entries + [filename])
    case Unreadable => Unreadable
  }

  /**
   * `update_log` adds exactly one entry at the end, keeps the earlier entries in order,
   * and does not check for duplicates; a missing log becomes a log of that one name.
   */
  lemma AppendedKeepsOrder(log: LogFile, filename: string)
    requires !log.Unreadable?
    ensures Appended(log, filename).Stored?
    ensures Entries(Appended(log, filename)) == Entries(log) + [filename]
    ensures |Entries(Appended(log, filename))| == |Entries(log)| + 1
    ensures log.Missing? ==> Appended(log, filename) == Stored([filename])
  {
  }

  /**
   * Right after `update_log(f)`, `already_processed` answers true for `f` and as before
   * for every other name; over an unreadable log it still answers false.
   */
  lemma ProcessedAfterAppend(log: LogFile, filename: string, other: string)
    ensures !log.Unreadable? ==> AlreadyProcessed(Appended(log, filename), filename)
    ensures other != filename ==>
      AlreadyProcessed(Appended(log, filename), other) == AlreadyProcessed(log, other)
    ensures log.Unreadable? ==> !AlreadyProcessed(Appended(log, filename), other)
  {
  }

  /** The log after `update_log` has been called for each name in turn. */
  function AppendedAll(log: LogFile, names: seq<string>): LogFile
    decreases |names|
  {
    if names == [] then log else Appended(AppendedAll(log, names[..|names| - 1]), names[|names| - 1])
  }

  /** Appending several names to a readable log extends the stored list by exactly those names. */
  lemma {:induction false} AppendedAllExtends(log: LogFile, names: seq<string>)
    ensures log.Unreadable? ==> AppendedAll(log, names) == Unreadable
    ensures log.Stored? ==> AppendedAll(log, names) == Stored(log.entries + names)
    ensures log.Missing? ==> AppendedAll(log, names) == if names == [] then Missing else Stored(names)
    decreases |names|
  {
    if names != [] {
      var init := names[..|names| - 1];
      AppendedAllExtends(log, init);
      assert init + [names[|names| - 1]] == names;
      if log.Stored? {
        assert log.entries + init + [names[|names| - 1]] == log.entries + names;
      }
    }
  }

  /**
   * The recordings a batch run handles, as the reference for the runs: in listing
   * order, each candidate that the log, as updated by the run so far, does not hold.
   */
  function Unprocessed(log: LogFile, candidates: seq<string>): (r: seq<string>)
    ensures forall x :: x in r ==> x in candidates
    decreases |candidates|
  {
    if candidates == [] then []
    else
      var done := Unprocessed(log, candidates[..|candidates| - 1]);
      var f := candidates[|candidates| - 1];
      if AlreadyProcessed(AppendedAll(log, done), f) then done else done + [f]
  }

  /** The candidates the log did not hold at the start, in listing order. */
  function NotLogged(log: LogFile, candidates: seq<string>): (r: seq<string>)
    ensures forall x :: x in r <==> x in candidates && !AlreadyProcessed(log, x)
    decreases |candidates|
  {
    if candidates == [] then []
    else
      var rest := NotLogged(log, candidates[..|candidates| - 1]);
      var f := candidates[|candidates| - 1];
      assert candidates == candidates[..|candidates| - 1] + [f];
      if AlreadyProcessed(log, f) then rest else rest + [f]
  }

  /** No name occurs twice (as in a directory listing). */
  predicate Distinct(names: seq<string>) {
    forall i, j :: 0 <= i < j < |names| ==> names[i] != names[j]
  }

  /**
   * Over a listing without repeated names, a run handles exactly the candidates that
   * were not logged when it started, in listing order.
   */
  lemma {:induction false} UnprocessedAreNotLogged(log: LogFile, candidates: seq<string>)
    requires Distinct(candidates)
    ensures Unprocessed(log, candidates) == NotLogged(log, candidates)
    decreases |candidates|
  {
    if candidates != [] {
      var init := candidates[..|candidates| - 1];
      var f := candidates[|candidates| - 1];
      var done := Unprocessed(log, init);
      assert Distinct(init);
      UnprocessedAreNotLogged(log, init);
      assert f !in init;
      assert f !in done;
      AppendedAllExtends(log, done);
      assert AlreadyProcessed(AppendedAll(log, done), f) == AlreadyProcessed(log, f);
    }
  }

  /** Over an unreadable log no candidate ever counts as processed, so every one is selected. */
  lemma {:induction false} UnreadableSelectsAll(candidates: seq<string>)
    ensures Unprocessed(Unreadable, candidates) == candidates
    decreases |candidates|
  {
    if candidates != [] {
      var init := candidates[..|candidates| - 1];
      UnreadableSelectsAll(init);
      AppendedAllExtends(Unreadable, init);
      assert init + [candidates[|candidates| - 1]] == candidates;
    }
  }
}
