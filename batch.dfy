/**
 * The per-file loop of `main` in both scripts: over the recordings of the vault root,
 * in listing order, skip those the log holds and process the others, each one's notes
 * saved before its log append. A recording that cannot be decoded raises out of
 * `split_audio` and ends the run.
 */
module Batch {
  import opened Wrappers
  import opened Text
  import opened CompletionLog
  import opened VaultModel
  import opened Pipeline
  import BasicScript
  import SummaryScript

  datatype Script = Basic | Summary

  /** A run so far: the effects performed, the vault they leave, and whether the run has ended on an error. */
  datatype Trace = Trace(effects: seq<Effect>, last: VaultState, aborted: bool)

  /** The effects for one recording that is not logged, or `None` when it cannot be decoded. */
  function FileEffects(s: VaultState, recording: string, script: Script, allowed: seq<string>, env: Engines): Option<seq<Effect>> {
    match env.decode(recording)
    case None => None
    case Some(length) =>
      Some(if script == Basic then BasicScript.RecordingEffects(recording, length, env)
           else SummaryScript.RecordingEffects(s, recording, length, allowed, env))
  }

  /** The run over `files`, one file after the other, from the vault `s0`. */
  function Run(s0: VaultState, files: seq<string>, script: Script, allowed: seq<string>, env: Engines): Trace
    decreases |files|
  {
    if files == [] then Trace([], s0, false)
    else
      var prev := Run(s0, files[..|files| - 1], script, allowed, env);
      var f := files[|files| - 1];
      if prev.aborted || AlreadyProcessed(prev.last.log, f) then prev
      else
        match FileEffects(prev.last, f, script, allowed, env)
        case None => prev.(aborted := true)
        case Some(effects) => Trace(prev.effects + effects, Replay(prev.last, effects), false)
  }

  /**
   * What `main` does from the vault `s0`, once the vault is chosen; only the summary
   * script lists the category folders.
   */
  function BatchRun(s0: VaultState, script: Script, env: Engines): Trace {
    Run(s0, Candidates(s0.entries), script, if script == Summary then AllowedCategories(s0.entries) else [], env)
  }

  /** The vault a run leaves is the one its effects produce, in order. */
  lemma {:induction false} RunReplays(s0: VaultState, files: seq<string>, script: Script, allowed: seq<string>, env: Engines)
    ensures Run(s0, files, script, allowed, env).last == Replay(s0, Run(s0, files, script, allowed, env).effects)
    decreases |files|
  {
    if files != [] {
      var prev := Run(s0, files[..|files| - 1], script, allowed, env);
      RunReplays(s0, files[..|files| - 1], script, allowed, env);
      var f := files[|files| - 1];
      if !prev.aborted && !AlreadyProcessed(prev.last.log, f) && FileEffects(prev.last, f, script, allowed, env).Some? {
        ReplayConcat(s0, prev.effects, FileEffects(prev.last, f, script, allowed, env).value);
      }
    }
  }

  /** Once a run has ended on an error, the later files change nothing. */
  lemma {:induction false} RunStopsAfterAbort(s0: VaultState, files: seq<string>, n: nat, script: Script, allowed: seq<string>, env: Engines)
    requires n <= |files|
    requires Run(s0, files[..n], script, allowed, env).aborted
    ensures Run(s0, files, script, allowed, env) == Run(s0, files[..n], script, allowed, env)
    decreases |files|
  {
    if n < |files| {
      var init := files[..|files| - 1];
      assert init[..n] == files[..n];
      RunStopsAfterAbort(s0, init, n, script, allowed, env);
    } else {
      assert files[..n] == files;
    }
  }

  /** One more file: skipped when logged or after an error, else processed or ending the run. */
  lemma RunStep(s0: VaultState, files: seq<string>, n: nat, script: Script, allowed: seq<string>, env: Engines)
    requires n < |files|
    ensures var prev := Run(s0, files[..n], script, allowed, env);
      var next := Run(s0, files[..n + 1], script, allowed, env);
      var f := files[n];
      && (prev.aborted || AlreadyProcessed(prev.last.log, f) ==> next == prev)
      && (!prev.aborted && !AlreadyProcessed(prev.last.log, f) && env.decode(f).None? ==> next == prev.(aborted := true))
      && (!prev.aborted && !AlreadyProcessed(prev.last.log, f) && env.decode(f).Some? ==>
            var effects := FileEffects(prev.last, f, script, allowed, env).value;
            next == Trace(prev.effects + effects, Replay(prev.last, effects), false))
  {
    assert files[..n + 1][..n] == files[..n];
    assert files[..n + 1][n] == files[n];
  }

  /** A run that has not ended on an error got through every earlier file too. */
  lemma RunPrefixNotAborted(s0: VaultState, files: seq<string>, script: Script, allowed: seq<string>, env: Engines)
    requires files != []
    requires !Run(s0, files, script, allowed, env).aborted
    ensures !Run(s0, files[..|files| - 1], script, allowed, env).aborted
  {
  }

  /** When every recording is in the log already, the run calls no engine and changes nothing. */
  lemma {:induction false} IdleRun(s0: VaultState, files: seq<string>, script: Script, allowed: seq<string>, env: Engines)
    requires forall k :: 0 <= k < |files| ==> AlreadyProcessed(s0.log, files[k])
    ensures Run(s0, files, script, allowed, env) == Trace([], s0, false)
    decreases |files|
  {
    if files != [] {
      var init := files[..|files| - 1];
      assert forall k :: 0 <= k < |init| ==> init[k] == files[k];
      IdleRun(s0, init, script, allowed, env);
      assert AlreadyProcessed(s0.log, files[|files| - 1]);
    }
  }

  /** One recording's effects append exactly that recording to the log. */
  lemma FileEffectsAppend(s: VaultState, recording: string, script: Script, allowed: seq<string>, env: Engines)
    requires FileEffects(s, recording, script, allowed, env).Some?
    ensures Replay(s, FileEffects(s, recording, script, allowed, env).value).log == Appended(s.log, recording)
  {
    var length := env.decode(recording).value;
    if script == Basic {
      BasicScript.RecordingNote(s, recording, length, env);
    } else {
      SummaryScript.PlanNotes(s, SummaryScript.PlanFor(s, recording, length, allowed, env), recording);
    }
  }

  /**
   * A run that ends without error leaves the log with every recording it processed
   * appended in order: exactly the reference selection `Unprocessed`.
   */
  lemma {:induction false} RunLog(s0: VaultState, files: seq<string>, script: Script, allowed: seq<string>, env: Engines)
    ensures !Run(s0, files, script, allowed, env).aborted ==>
      Run(s0, files, script, allowed, env).last.log == AppendedAll(s0.log, Unprocessed(s0.log, files))
    decreases |files|
  {
    if files != [] && !Run(s0, files, script, allowed, env).aborted {
      var init := files[..|files| - 1];
      var f := files[|files| - 1];
      var prev := Run(s0, init, script, allowed, env);
      RunPrefixNotAborted(s0, files, script, allowed, env);
      RunLog(s0, init, script, allowed, env);
      var done := Unprocessed(s0.log, init);
      if !AlreadyProcessed(prev.last.log, f) {
        FileEffectsAppend(prev.last, f, script, allowed, env);
        assert (done + [f])[..|done + [f]| - 1] == done;
      }
    }
  }

  /**
   * Over a listing without repeated names and a readable log, the log after a run that
   * ends without error is the old log followed by exactly the recordings that were not
   * logged, in listing order; a missing log starts from empty.
   */
  lemma RunAppendsUnlogged(s0: VaultState, files: seq<string>, script: Script, allowed: seq<string>, env: Engines)
    requires Distinct(files) && !s0.log.Unreadable?
    requires !Run(s0, files, script, allowed, env).aborted
    ensures Entries(Run(s0, files, script, allowed, env).last.log) == Entries(s0.log) + NotLogged(s0.log, files)
  {
    RunLog(s0, files, script, allowed, env);
    UnprocessedAreNotLogged(s0.log, files);
    AppendedAllExtends(s0.log, NotLogged(s0.log, files));
  }

  /** The basic script's effects for a recording log exactly that recording. */
  lemma BasicLogsOne(recording: string, length: nat, env: Engines)
    ensures Logged(BasicScript.RecordingEffects(recording, length, env)) == [recording]
  {
    var save := SaveEffects([], BasicScript.NoteName(recording), Transcript(recording, length, env), false);
    SaveLogsNothing([], BasicScript.NoteName(recording), Transcript(recording, length, env), false);
    AppendLogsOne(recording);
    LoggedConcat(save, [AppendLog(recording)]);
  }

  /** The summary script's effects for a recording log exactly that recording. */
  lemma SummaryLogsOne(p: SummaryScript.FilePlan, recording: string)
    ensures Logged(SummaryScript.PlanEffects(p, recording)) == [recording]
  {
    var raw := SaveEffects([], p.name, p.transcript, false);
    var sum := SaveEffects([p.category], p.name, p.summary, true);
    var dir := [MakeDir([p.category])];
    assert Logged(dir) == [] by {
      assert dir[..0] == [];
    }
    SaveLogsNothing([], p.name, p.transcript, false);
    SaveLogsNothing([p.category], p.name, p.summary, true);
    AppendLogsOne(recording);
    LoggedConcat(dir, raw);
    LoggedConcat(dir + raw, sum);
    LoggedConcat(dir + raw + sum, [AppendLog(recording)]);
  }

  /** One recording's effects log exactly that recording. */
  lemma FileEffectsLogOne(s: VaultState, recording: string, script: Script, allowed: seq<string>, env: Engines)
    requires FileEffects(s, recording, script, allowed, env).Some?
    ensures Logged(FileEffects(s, recording, script, allowed, env).value) == [recording]
  {
    var length := env.decode(recording).value;
    if script == Basic {
      BasicLogsOne(recording, length, env);
    } else {
      SummaryLogsOne(SummaryScript.PlanFor(s, recording, length, allowed, env), recording);
    }
  }

  /**
   * A run that ends without error handles, in order, exactly the reference selection
   * `Unprocessed`: the recordings it appends to the log, whatever the log's state.
   */
  lemma {:induction false} RunHandles(s0: VaultState, files: seq<string>, script: Script, allowed: seq<string>, env: Engines)
    ensures !Run(s0, files, script, allowed, env).aborted ==>
      Logged(Run(s0, files, script, allowed, env).effects) == Unprocessed(s0.log, files)
    decreases |files|
  {
    if files != [] && !Run(s0, files, script, allowed, env).aborted {
      var init := files[..|files| - 1];
      var f := files[|files| - 1];
      var prev := Run(s0, init, script, allowed, env);
      RunPrefixNotAborted(s0, files, script, allowed, env);
      RunHandles(s0, init, script, allowed, env);
      RunLog(s0, init, script, allowed, env);
      if !AlreadyProcessed(prev.last.log, f) {
        var effects := FileEffects(prev.last, f, script, allowed, env).value;
        LoggedConcat(prev.effects, effects);
        FileEffectsLogOne(prev.last, f, script, allowed, env);
      }
    }
  }

  /**
   * With an unreadable log nothing counts as processed and nothing can be appended:
   * every recording is processed again, in listing order, and the log stays unreadable.
   */
  lemma UnreadableLogReprocesses(s0: VaultState, files: seq<string>, script: Script, allowed: seq<string>, env: Engines)
    requires s0.log.Unreadable?
    requires !Run(s0, files, script, allowed, env).aborted
    ensures Unprocessed(s0.log, files) == files
    ensures Logged(Run(s0, files, script, allowed, env).effects) == files
    ensures Run(s0, files, script, allowed, env).last.log == Unreadable
  {
    UnreadableSelectsAll(files);
    RunHandles(s0, files, script, allowed, env);
    RunLog(s0, files, script, allowed, env);
    AppendedAllExtends(s0.log, files);
  }

  /**
   * What comes before the log append at index `k`: in the basic script the recording's
   * own note, just before; in the summary script the summary note just before and the
   * raw transcript two effects earlier.
   */
  predicate NotesBefore(effects: seq<Effect>, k: nat, script: Script)
    requires k < |effects| && effects[k].AppendLog?
  {
    if script == Basic then
      && k >= 1
      && effects[k - 1].WriteNote?
      && effects[k - 1].folder == ["Transcripts"]
      && effects[k - 1].file == SplitExt(effects[k].recording).0 + ".md"
    else
      && k >= 3
      && effects[k - 1].WriteNote?
      && effects[k - 3].WriteNote?
      && effects[k - 3].folder == ["Transcripts"]
      && effects[k - 3].file == effects[k - 1].file
  }

  /** Every log append comes after the notes of the same recording. */
  predicate CommitsAfterNotes(effects: seq<Effect>, script: Script) {
    forall k :: 0 <= k < |effects| && effects[k].AppendLog? ==> NotesBefore(effects, k, script)
  }

  lemma CommitsAfterNotesConcat(a: seq<Effect>, b: seq<Effect>, script: Script)
    requires CommitsAfterNotes(a, script) && CommitsAfterNotes(b, script)
    ensures CommitsAfterNotes(a + b, script)
  {
    var c := a + b;
    forall k | 0 <= k < |c| && c[k].AppendLog? ensures NotesBefore(c, k, script) {
      if k < |a| {
        assert c[k] == a[k];
        assert NotesBefore(a, k, script);
        assert forall j :: 0 <= j <= k ==> c[j] == a[j];
      } else {
        assert c[k] == b[k - |a|];
        assert NotesBefore(b, k - |a|, script);
        assert forall j :: |a| <= j <= k ==> c[j] == b[j - |a|];
      }
    }
  }

  /** The basic script's effects for a recording: its note, then its log append. */
  lemma BasicCommitsLast(recording: string, length: nat, env: Engines)
    ensures CommitsAfterNotes(BasicScript.RecordingEffects(recording, length, env), Basic)
  {
    var effects := BasicScript.RecordingEffects(recording, length, env);
    assert MarkdownFolder([], false) == ["Transcripts"];
    assert effects == [MakeDir(["Transcripts"]),
                       WriteNote(["Transcripts"], SplitExt(recording).0 + ".md", Transcript(recording, length, env)),
                       AppendLog(recording)];
  }

  /** The summary script's effects for a recording: both notes, then its log append. */
  lemma SummaryCommitsLast(p: SummaryScript.FilePlan, recording: string)
    ensures CommitsAfterNotes(SummaryScript.PlanEffects(p, recording), Summary)
  {
    var effects := SummaryScript.PlanEffects(p, recording);
    assert MarkdownFolder([], false) == ["Transcripts"];
    assert effects == [MakeDir([p.category]),
                       MakeDir(["Transcripts"]),
                       WriteNote(["Transcripts"], p.name + ".md", p.transcript),
                       MakeDir([p.category]),
                       WriteNote([p.category], p.name + ".md", NoteBody(p.summary, true)),
                       AppendLog(recording)];
  }

  /** One recording's effects put its notes before its log append. */
  lemma FileEffectsCommitLast(s: VaultState, recording: string, script: Script, allowed: seq<string>, env: Engines)
    requires FileEffects(s, recording, script, allowed, env).Some?
    ensures CommitsAfterNotes(FileEffects(s, recording, script, allowed, env).value, script)
  {
    var length := env.decode(recording).value;
    if script == Basic {
      BasicCommitsLast(recording, length, env);
    } else {
      SummaryCommitsLast(SummaryScript.PlanFor(s, recording, length, allowed, env), recording);
    }
  }

  /** In the effects of a whole run, each log append comes after both notes of its recording. */
  lemma {:induction false} RunCommitsAfterNotes(s0: VaultState, files: seq<string>, script: Script, allowed: seq<string>, env: Engines)
    ensures CommitsAfterNotes(Run(s0, files, script, allowed, env).effects, script)
    decreases |files|
  {
    if files != [] {
      var prev := Run(s0, files[..|files| - 1], script, allowed, env);
      RunCommitsAfterNotes(s0, files[..|files| - 1], script, allowed, env);
      var f := files[|files| - 1];
      if !prev.aborted && !AlreadyProcessed(prev.last.log, f) && FileEffects(prev.last, f, script, allowed, env).Some? {
        FileEffectsCommitLast(prev.last, f, script, allowed, env);
        CommitsAfterNotesConcat(prev.effects, FileEffects(prev.last, f, script, allowed, env).value, script);
      }
    }
  }

  /**
   * One pass of the per-file loop: skip the recording when the log holds it, else
   * process it with the script's own steps.
   */
  method ProcessNext(v: Vault, ghost s0: VaultState, ghost h0: seq<Effect>, files: seq<string>, i: nat,
                     script: Script, allowed: seq<string>, env: Engines)
    returns (aborted: bool)
    requires i < |files|
    requires !Run(s0, files[..i], script, allowed, env).aborted
    requires v.State() == Run(s0, files[..i], script, allowed, env).last
    requires v.history == h0 + Run(s0, files[..i], script, allowed, env).effects
    modifies v
    ensures var t := Run(s0, files[..i + 1], script, allowed, env);
      v.State() == t.last && v.history == h0 + t.effects && aborted == t.aborted
  {
    ghost var prev := Run(s0, files[..i], script, allowed, env);
    var recording := files[i];
    RunStep(s0, files, i, script, allowed, env);
    aborted := false;
    if !AlreadyProcessed(v.log, recording) {
      ghost var before := v.State();
      ghost var effects: seq<Effect>;
      if script == Basic {
        aborted := BasicScript.ProcessRecording(v, recording, env);
        effects := if aborted then [] else BasicScript.RecordingEffects(recording, env.decode(recording).value, env);
      } else {
        aborted := SummaryScript.ProcessRecording(v, recording, allowed, env);
        effects := if aborted then [] else SummaryScript.RecordingEffects(before, recording, env.decode(recording).value, allowed, env);
      }
      if !aborted {
        assert FileEffects(before, recording, script, allowed, env) == Some(effects);
        ConcatAssoc(h0, prev.effects, effects);
      }
    }
  }

  lemma ConcatAssoc(a: seq<Effect>, b: seq<Effect>, c: seq<Effect>)
    ensures (a + b) + c == a + (b + c)
  {
  }

  /** `main` of `obsidian_whisper_basic.py`, from the point where the vault is chosen. */
  method RunBasic(v: Vault, env: Engines) returns (aborted: bool)
    modifies v
    ensures var t := BatchRun(old(v.State()), Basic, env);
      v.State() == t.last && v.history == old(v.history) + t.effects && aborted == t.aborted
  {
    var candidates := Candidates(v.entries);
    if candidates == [] {
      return false;
    }
    ghost var s0 := v.State();
    ghost var h0 := v.history;
    aborted := false;
    var i := 0;
    while i < |candidates|
      invariant 0 <= i <= |candidates|
      invariant v.State() == Run(s0, candidates[..i], Basic, [], env).last
      invariant v.history == h0 + Run(s0, candidates[..i], Basic, [], env).effects
      invariant !Run(s0, candidates[..i], Basic, [], env).aborted
    {
      aborted := ProcessNext(v, s0, h0, candidates, i, Basic, [], env);
      if aborted {
        RunStopsAfterAbort(s0, candidates, i + 1, Basic, [], env);
        return;
      }
      i := i + 1;
    }
    assert candidates[..|candidates|] == candidates;
  }

  /** `main` of `obsidian_whisper_summary.py`, from the point where the vault is chosen. */
  method RunSummary(v: Vault, env: Engines) returns (aborted: bool)
    modifies v
    ensures var t := BatchRun(old(v.State()), Summary, env);
      v.State() == t.last && v.history == old(v.history) + t.effects && aborted == t.aborted
  {
    var allowed := AllowedCategories(v.entries);
    var candidates := Candidates(v.entries);
    if candidates == [] {
      return false;
    }
    ghost var s0 := v.State();
    ghost var h0 := v.history;
    aborted := false;
    var i := 0;
    while i < |candidates|
      invariant 0 <= i <= |candidates|
      invariant v.State() == Run(s0, candidates[..i], Summary, allowed, env).last
      invariant v.history == h0 + Run(s0, candidates[..i], Summary, allowed, env).effects
      invariant !Run(s0, candidates[..i], Summary, allowed, env).aborted
    {
      aborted := ProcessNext(v, s0, h0, candidates, i, Summary, allowed, env);
      if aborted {
        RunStopsAfterAbort(s0, candidates, i + 1, Summary, allowed, env);
        return;
      }
      i := i + 1;
    }
    assert candidates[..|candidates|] == candidates;
  }
}
