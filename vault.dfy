/**
 * The vault as the two scripts see it: the listing of its root folder, the completion
 * log, and the notes written below it. Every change the scripts make is one of three
 * effects (a folder created, a note written, the log appended to); the pure `Apply`
 * says what each does, and the class `Vault` performs them in place.
 */
module VaultModel {
  import opened Text
  import opened CompletionLog

  /** The folder that raw transcripts go into. */
  const TranscriptsFolder: string := "Transcripts"

  /** The extension every note file gets. */
  const NoteExtension: string := ".md"

  /** A folder below the vault root, as its path components; `[]` is the root itself. */
  type Folder = seq<string>

  datatype Kind = File | Dir

  /** One entry of the vault root's listing. */
  datatype Entry = Entry(name: string, kind: Kind)

  /** Where a note lives: its folder and its file name. */
  datatype NoteKey = NoteKey(folder: Folder, file: string)

  /**
   * The vault: its root listing in listing order, the completion log, and the
   * content of every note file below the root.
   */
  datatype VaultState = VaultState(entries: seq<Entry>, log: LogFile, notes: map<NoteKey, string>)

  /** A change to the vault: `os.makedirs(..., exist_ok=True)`, a note written whole, a log append. */
  datatype Effect =
    | MakeDir(folder: Folder)
    | WriteNote(folder: Folder, file: string, content: string)
    | AppendLog(recording: string)

  /** The names found in the vault root. */
  function Names(entries: seq<Entry>): (r: set<string>)
    ensures forall k :: 0 <= k < |entries| ==> entries[k].name in r
    ensures forall x :: x in r ==> exists k :: 0 <= k < |entries| && entries[k].name == x
  {
    set k | 0 <= k < |entries| :: entries[k].name
  }

  /** The listing once `entry` exists: unchanged when the name is already there. */
  function WithEntry(entries: seq<Entry>, entry: Entry): (r: seq<Entry>)
    ensures Names(r) == Names(entries) + {entry.name}
    ensures entry.name in Names(entries) ==> r == entries
  {
    if entry.name in Names(entries) then entries
    else
      var r := entries + [entry];
      assert r[|entries|].name == entry.name;
      assert forall k :: 0 <= k < |entries| ==> r[k] == entries[k];
      assert forall x :: x in Names(entries) ==> x in Names(r);
      r
  }

  /** The vault after one effect. Only creations at the root change the root listing. */
  function Apply(s: VaultState, e: Effect): VaultState {
    match e
    case MakeDir(folder) =>
      if folder == [] then s else s.(entries := WithEntry(s.entries, Entry(folder[0], Dir)))
    case WriteNote(folder, file, content) =>
      s.(notes := s.notes[NoteKey(folder, file) := content],
         entries := if folder == [] then WithEntry(s.entries, Entry(file, File)) else s.entries)
    case AppendLog(f) =>
      var log := Appended(s.log, f);
      s.(log := log,
         entries := if log.Stored? then WithEntry(s.entries, Entry(LogName, File)) else s.entries)
  }

  /** The vault after a sequence of effects, in order. */
  function Replay(s: VaultState, effects: seq<Effect>): VaultState
    decreases |effects|
  {
    if effects == [] then s else Replay(Apply(s, effects[0]), effects[1..])
  }

  /** Replaying two effects is applying one after the other. */
  lemma ReplayPair(s: VaultState, a: Effect, b: Effect)
    ensures Replay(s, [a, b]) == Apply(Apply(s, a), b)
  {
    var t := Apply(Apply(s, a), b);
    assert [a, b][1..] == [b];
    assert [b][1..] == [];
    assert Replay(Apply(s, a), [b]) == Replay(t, []);
  }

  /** Replaying two runs of effects is replaying the first, then the second. */
  lemma {:induction false} ReplayConcat(s: VaultState, a: seq<Effect>, b: seq<Effect>)
    ensures Replay(s, a + b) == Replay(Replay(s, a), b)
    decreases |a|
  {
    if a == [] {
      assert a + b == b;
    } else {
      assert (a + b)[0] == a[0] && (a + b)[1..] == a[1..] + b;
      ReplayConcat(Apply(s, a[0]), a[1..], b);
    }
  }

  /** Replaying one more effect is applying it to the state replayed so far. */
  lemma ReplaySnoc(s: VaultState, a: seq<Effect>, e: Effect)
    ensures Replay(s, a + [e]) == Apply(Replay(s, a), e)
  {
    ReplayConcat(s, a, [e]);
    assert [e][1..] == [];
  }

  /** The recordings a run of effects appends to the log, in order. */
  function Logged(effects: seq<Effect>): seq<string>
    decreases |effects|
  {
    if effects == [] then []
    else
      var e := effects[|effects| - 1];
      Logged(effects[..|effects| - 1]) + (if e.AppendLog? then [e.recording] else [])
  }

  /** The appends of two runs of effects are those of the first, then those of the second. */
  lemma {:induction false} LoggedConcat(a: seq<Effect>, b: seq<Effect>)
    ensures Logged(a + b) == Logged(a) + Logged(b)
    decreases |b|
  {
    if b == [] {
      assert a + b == a;
    } else {
      var init := b[..|b| - 1];
      var e := b[|b| - 1];
      var tail := if e.AppendLog? then [e.recording] else [];
      assert (a + b)[..|a + b| - 1] == a + init;
      assert (a + b)[|a + b| - 1] == e;
      LoggedConcat(a, init);
      assert Logged(a + b) == Logged(a) + Logged(init) + tail;
      assert Logged(b) == Logged(init) + tail;
    }
  }

  /** Saving a note appends nothing to the log. */
  lemma SaveLogsNothing(folder: Folder, filename: string, content: string, isSummary: bool)
    ensures Logged(SaveEffects(folder, filename, content, isSummary)) == []
  {
    var save := SaveEffects(folder, filename, content, isSummary);
    var first := [save[0]];
    assert save[..|save| - 1] == first && save[1].WriteNote?;
    assert Logged(first) == [] by {
      assert first[..0] == [] && first[0].MakeDir?;
    }
  }

  /** A single log append logs its recording. */
  lemma AppendLogsOne(recording: string)
    ensures Logged([AppendLog(recording)]) == [recording]
  {
    assert [AppendLog(recording)][..0] == [];
  }

  /** The folder `save_to_markdown(folder, ...)` writes into: the folder itself for a summary, else its "Transcripts". */
  function MarkdownFolder(folder: Folder, isSummary: bool): Folder {
    if isSummary then folder else folder + [TranscriptsFolder]
  }

  /** What `save_to_markdown` writes: a summary with its code fences removed, anything else as it is. */
  function NoteBody(content: string, isSummary: bool): (r: string)
    ensures isSummary ==> !Contains(r, Fence)
    ensures !isSummary ==> r == content
    ensures !Contains(content, Fence) ==> r == content
  {
    if isSummary then
      StripFencesLeavesNoFence(content);
      StripFencesKeepsPlainText(content);
      StripFences(content)
    else content
  }

  /** `save_to_markdown(folder, filename, content, is_summary)` as effects: create the folder, write the note. */
  function SaveEffects(folder: Folder, filename: string, content: string, isSummary: bool): seq<Effect> {
    var markdownFolder := MarkdownFolder(folder, isSummary);
    [MakeDir(markdownFolder), WriteNote(markdownFolder, filename + NoteExtension, NoteBody(content, isSummary))]
  }

  /**
   * `save_to_markdown` puts exactly one note, `<filename>.md`, in `Transcripts/` below the
   * given folder (raw content, unchanged) or in the folder itself (a summary, without
   * code fences); every other note and the log stay as they were, and the root keeps
   * every name it had.
   */
  lemma SaveToMarkdownWrites(s: VaultState, folder: Folder, filename: string, content: string, isSummary: bool)
    ensures var t := Replay(s, SaveEffects(folder, filename, content, isSummary));
      var key := NoteKey(if isSummary then folder else folder + ["Transcripts"], filename + ".md");
      && t.notes == s.notes[key := if isSummary then StripFences(content) else content]
      && (isSummary ==> !Contains(t.notes[key], Fence))
      && t.log == s.log
      && Names(s.entries) <= Names(t.entries)
  {
    var effects := SaveEffects(folder, filename, content, isSummary);
    ReplayPair(s, effects[0], effects[1]);
  }

  /**
   * The vault, changed in place. `history` records every effect performed on it, so
   * that the order of writes and log appends can be stated.
   */
  class Vault {
    var entries: seq<Entry>
    var log: LogFile
    var notes: map<NoteKey, string>
    ghost var history: seq<Effect>

    function State(): VaultState
      reads this
    {
      VaultState(entries, log, notes)
    }

    constructor (s: VaultState)
      ensures State() == s && history == []
    {
      entries := s.entries;
      log := s.log;
      notes := s.notes;
      history := [];
    }

    /** `os.makedirs(folder, exist_ok=True)`: a new top-level folder appears in the root listing. */
    method MakeDirs(folder: Folder)
      modifies this
      ensures State() == Apply(old(State()), MakeDir(folder))
      ensures history == old(history) + [MakeDir(folder)]
    {
      if folder != [] && folder[0] !in Names(entries) {
        entries := entries + [Entry(folder[0], Dir)];
      }
      history := history + [MakeDir(folder)];
    }

    /** `open(path, "w").write(content)`: the note is created or overwritten whole. */
    method WriteFile(folder: Folder, file: string, content: string)
      modifies this
      ensures State() == Apply(old(State()), WriteNote(folder, file, content))
      ensures history == old(history) + [WriteNote(folder, file, content)]
    {
      notes := notes[NoteKey(folder, file) := content];
      if folder == [] && file !in Names(entries) {
        entries := entries + [Entry(file, File)];
      }
      history := history + [WriteNote(folder, file, content)];
    }

    /**
     * `save_to_markdown(folder, filename, content, is_summary)`; the basic script's
     * version is the one with `isSummary` false.
     */
    method SaveToMarkdown(folder: Folder, filename: string, content: string, isSummary: bool)
      modifies this
      ensures State() == Replay(old(State()), SaveEffects(folder, filename, content, isSummary))
      ensures history == old(history) + SaveEffects(folder, filename, content, isSummary)
    {
      var markdownFolder := if isSummary then folder else folder + [TranscriptsFolder];
      MakeDirs(markdownFolder);
      var body := content;
      if isSummary {
        body := ReplaceAll(ReplaceAll(content, MarkdownFence, ""), Fence, "");
      }
      WriteFile(markdownFolder, filename + NoteExtension, body);
      ghost var effects := SaveEffects(folder, filename, content, isSummary);
      ReplayPair(old(State()), effects[0], effects[1]);
    }

    /**
     * `update_log(log_path, filename)`: read the list (empty when there is no log), append
     * the name, write the list back. When the log cannot be read the error is reported and
     * nothing is written.
     */
    method UpdateLog(filename: string)
      modifies this
      ensures State() == Apply(old(State()), AppendLog(filename))
      ensures history == old(history) + [AppendLog(filename)]
    {
      history := history + [AppendLog(filename)];
      if log.Unreadable? {
        return;
      }
      var logData: seq<string> := [];
      if log.Stored? {
        logData := log.entries;
      }
      logData := logData + [filename];
      log := Stored(logData);
      if LogName !in Names(entries) {
        entries := entries + [Entry(LogName, File)];
      }
    }
  }
}
