/**
 * One recording in `obsidian_whisper_summary.py`: transcribe it, have the transcript
 * summarised, have the summary categorised and named, pick a free name, save the raw
 * transcript and the summary, then append the recording to the log.
 */
module SummaryScript {
  import opened Wrappers
  import opened Text
  import opened Chunking
  import opened CompletionLog
  import opened Naming
  import opened VaultModel
  import opened Pipeline

  /** What the script works out for one recording before it writes anything. */
  datatype FilePlan = FilePlan(transcript: string, summary: string, category: string, name: string)

  /**
   * The plan for a recording of `length` milliseconds: the transcript, the stripped
   * summary ("" when that request fails), the category and title parsed from the
   * categorising reply, and the title made unique against the vault root.
   */
  function PlanFor(s: VaultState, recording: string, length: nat, allowed: seq<string>, env: Engines): (p: FilePlan)
    ensures p.transcript == Transcript(recording, length, env)
    ensures p.summary == ProcessTranscription(env.summarize(p.transcript))
    ensures p.category == CategorizeAndName(env.categorize(p.summary, allowed), allowed).0
    ensures p.category in allowed || p.category == Uncategorized
    ensures p.name == UniqueName(ExistingNames(s), SuggestedTitle(s, recording, length, allowed, env))
    ensures p.name !in ExistingNames(s)
    ensures p.summary == [] || (!IsSpace(p.summary[0]) && !IsSpace(p.summary[|p.summary| - 1]))
  {
    var transcript := Transcript(recording, length, env);
    var summary := ProcessTranscription(env.summarize(transcript));
    var category := CategorizeAndName(env.categorize(summary, allowed), allowed).0;
    FilePlan(transcript, summary, category, UniqueName(ExistingNames(s), SuggestedTitle(s, recording, length, allowed, env)))
  }

  /** The title the model suggests for the recording, before it is made unique. */
  function SuggestedTitle(s: VaultState, recording: string, length: nat, allowed: seq<string>, env: Engines): (t: string)
    ensures t == CategorizeAndName(env.categorize(ProcessTranscription(env.summarize(Transcript(recording, length, env))), allowed), allowed).1
  {
    var summary := ProcessTranscription(env.summarize(Transcript(recording, length, env)));
    CategorizeAndName(env.categorize(summary, allowed), allowed).1
  }

  /**
   * What the script does with a plan: create the category folder, save the raw
   * transcript under `Transcripts/`, save the summary in the category folder, and only
   * then append the recording to the log.
   */
  function PlanEffects(p: FilePlan, recording: string): seq<Effect> {
    [MakeDir([p.category])]
      + SaveEffects([], p.name, p.transcript, false)
      + SaveEffects([p.category], p.name, p.summary, true)
      + [AppendLog(recording)]
  }

  function RecordingEffects(s: VaultState, recording: string, length: nat, allowed: seq<string>, env: Engines): seq<Effect> {
    PlanEffects(PlanFor(s, recording, length, allowed, env), recording)
  }

  /**
   * After one recording, the raw transcript is `Transcripts/<name>.md` and the summary,
   * without code fences, is `<category>/<name>.md`, written in that order (so when the
   * category is the "Transcripts" folder itself the summary replaces the transcript);
   * no other note is touched, the category folder exists, and the log has the recording
   * appended.
   */
  lemma PlanNotes(s: VaultState, p: FilePlan, recording: string)
    ensures var t := Replay(s, PlanEffects(p, recording));
      && t.notes == s.notes[NoteKey(["Transcripts"], p.name + ".md") := p.transcript]
                           [NoteKey([p.category], p.name + ".md") := StripFences(p.summary)]
      && p.category in Names(t.entries)
      && t.log == Appended(s.log, recording)
  {
    var s1 := Apply(s, MakeDir([p.category]));
    var s2 := Replay(s1, SaveEffects([], p.name, p.transcript, false));
    PlanSteps(s, p, recording);
    SaveToMarkdownWrites(s1, [], p.name, p.transcript, false);
    SaveToMarkdownWrites(s2, [p.category], p.name, p.summary, true);
    assert [] + ["Transcripts"] == ["Transcripts"];
    assert p.category in Names(s1.entries);
  }

  /** The summary note never holds a code fence, and the raw transcript survives unless the category is "Transcripts". */
  lemma PlanNoteContents(s: VaultState, p: FilePlan, recording: string)
    ensures var t := Replay(s, PlanEffects(p, recording));
      var summaryKey := NoteKey([p.category], p.name + ".md");
      var rawKey := NoteKey(["Transcripts"], p.name + ".md");
      && summaryKey in t.notes && rawKey in t.notes
      && !Contains(t.notes[summaryKey], Fence)
      && (p.category != "Transcripts" ==> t.notes[rawKey] == p.transcript)
      && (p.category == "Transcripts" ==> t.notes[rawKey] == StripFences(p.summary))
  {
    PlanNotes(s, p, recording);
    StripFencesLeavesNoFence(p.summary);
  }

  /**
   * The raw transcript is saved under the name the model suggests, made unique, and not
   * under the recording's own base name: `Transcripts/<base name>.md` is written only
   * when the two names happen to agree.
   */
  lemma RawNoteNamedByModel(s: VaultState, recording: string, length: nat, allowed: seq<string>, env: Engines)
    ensures var p := PlanFor(s, recording, length, allowed, env);
      var t := Replay(s, RecordingEffects(s, recording, length, allowed, env));
      var baseKey := NoteKey(["Transcripts"], SplitExt(recording).0 + ".md");
      var rawKey := NoteKey(["Transcripts"], p.name + ".md");
      && rawKey in t.notes
      && (p.category != "Transcripts" ==> t.notes[rawKey] == p.transcript)
      && (p.name != SplitExt(recording).0 ==> (baseKey in t.notes <==> baseKey in s.notes))
      && (p.name != SplitExt(recording).0 && baseKey in s.notes ==> t.notes[baseKey] == s.notes[baseKey])
  {
    var p := PlanFor(s, recording, length, allowed, env);
    PlanNoteContents(s, p, recording);
    if p.name != SplitExt(recording).0 {
      PlanKeepsOtherRawNote(s, p, recording, SplitExt(recording).0);
    }
  }

  /** A plan leaves every raw note of another name as it was. */
  lemma PlanKeepsOtherRawNote(s: VaultState, p: FilePlan, recording: string, other: string)
    requires other != p.name
    ensures var t := Replay(s, PlanEffects(p, recording));
      var key := NoteKey(["Transcripts"], other + ".md");
      && (key in t.notes <==> key in s.notes)
      && (key in s.notes ==> t.notes[key] == s.notes[key])
  {
    PlanNotes(s, p, recording);
    NoteFilesDiffer(p.name, other);
  }

  /** A suggested title that names nothing in the vault root is used as it is. */
  lemma FreeTitleIsKept(s: VaultState, recording: string, length: nat, allowed: seq<string>, env: Engines)
    requires SuggestedTitle(s, recording, length, allowed, env) !in ExistingNames(s)
    ensures PlanFor(s, recording, length, allowed, env).name == SuggestedTitle(s, recording, length, allowed, env)
  {
  }

  /** Different note names give different note files. */
  lemma NoteFilesDiffer(a: string, b: string)
    requires a != b
    ensures a + ".md" != b + ".md"
  {
    assert (a + ".md")[..|a + ".md"| - 3] == a;
    assert (b + ".md")[..|b + ".md"| - 3] == b;
  }

  /**
   * The folder check of `unique_filename` looks at the vault root, where no note is
   * written: a suggested title that names nothing in the root is used as it is, even
   * when `Transcripts/<title>.md` exists already, and that note is then overwritten
   * with the new transcript.
   */
  lemma RootCheckOverwritesNote(s: VaultState, recording: string, length: nat, allowed: seq<string>, env: Engines)
    requires SuggestedTitle(s, recording, length, allowed, env) !in ExistingNames(s)
    requires NoteKey(["Transcripts"], SuggestedTitle(s, recording, length, allowed, env) + ".md") in s.notes
    requires PlanFor(s, recording, length, allowed, env).category != "Transcripts"
    ensures var title := SuggestedTitle(s, recording, length, allowed, env);
      var t := Replay(s, RecordingEffects(s, recording, length, allowed, env));
      && PlanFor(s, recording, length, allowed, env).name == title
      && NoteKey(["Transcripts"], title + ".md") in t.notes
      && t.notes[NoteKey(["Transcripts"], title + ".md")] == Transcript(recording, length, env)
  {
    PlanNoteContents(s, PlanFor(s, recording, length, allowed, env), recording);
  }

  /**
   * The other side of the same check: a title that names a folder or file of the
   * root, such as a category folder, is given a counter suffix although no note of
   * that name exists.
   */
  lemma RootCheckRenamesNote(s: VaultState, recording: string, length: nat, allowed: seq<string>, env: Engines)
    requires SuggestedTitle(s, recording, length, allowed, env) in Names(s.entries)
    ensures PlanFor(s, recording, length, allowed, env).name != SuggestedTitle(s, recording, length, allowed, env)
  {
  }

  /**
   * The writing half of the per-file body: create the category folder, save the raw
   * transcript, save the summary, and append the recording to the log, in that order.
   */
  method CarryOut(v: Vault, p: FilePlan, recording: string)
    modifies v
    ensures v.State() == Replay(old(v.State()), PlanEffects(p, recording))
    ensures v.history == old(v.history) + PlanEffects(p, recording)
  {
    PlanSteps(old(v.State()), p, recording);
    PlanHistory(old(v.history), p, recording);
    v.MakeDirs([p.category]);
    v.SaveToMarkdown([], p.name, p.transcript, false);
    v.SaveToMarkdown([p.category], p.name, p.summary, true);
    v.UpdateLog(recording);
  }

  /** The effects of a plan, taken one step at a time as `CarryOut` performs them. */
  lemma PlanSteps(s: VaultState, p: FilePlan, recording: string)
    ensures Replay(s, PlanEffects(p, recording))
         == Apply(Replay(Replay(Apply(s, MakeDir([p.category])), SaveEffects([], p.name, p.transcript, false)),
                         SaveEffects([p.category], p.name, p.summary, true)),
                  AppendLog(recording))
  {
    var dir := [MakeDir([p.category])];
    var raw := SaveEffects([], p.name, p.transcript, false);
    var sum := SaveEffects([p.category], p.name, p.summary, true);
    var s1 := Apply(s, MakeDir([p.category]));
    assert Replay(s, dir) == s1 by {
      assert dir[1..] == [];
    }
    var s2 := Replay(s1, raw);
    assert Replay(s, dir + raw) == s2 by {
      ReplayConcat(s, dir, raw);
    }
    var s3 := Replay(s2, sum);
    assert Replay(s, dir + raw + sum) == s3 by {
      ReplayConcat(s, dir + raw, sum);
    }
    ReplaySnoc(s, dir + raw + sum, AppendLog(recording));
  }

  /** The history of a plan, as `CarryOut` extends it one step at a time. */
  lemma PlanHistory(h: seq<Effect>, p: FilePlan, recording: string)
    ensures h + PlanEffects(p, recording)
         == h + [MakeDir([p.category])] + SaveEffects([], p.name, p.transcript, false)
              + SaveEffects([p.category], p.name, p.summary, true) + [AppendLog(recording)]
  {
  }

  /**
   * The body of the per-file loop of `main` for a recording that is not logged. When the
   * recording cannot be decoded `split_audio` raises, which ends the run with nothing
   * done for this recording.
   */
  method ProcessRecording(v: Vault, recording: string, allowed: seq<string>, env: Engines) returns (aborted: bool)
    modifies v
    ensures aborted <==> env.decode(recording).None?
    ensures aborted ==> v.State() == old(v.State()) && v.history == old(v.history)
    ensures !aborted ==>
      var effects := RecordingEffects(old(v.State()), recording, env.decode(recording).value, allowed, env);
      v.State() == Replay(old(v.State()), effects) && v.history == old(v.history) + effects
  {
    var length := env.decode(recording);
    if length.None? {
      return true;
    }
    var chunks := SplitAudio(length.value, ChunkLengthMs);
    var transcript := TranscribeChunks(recording, chunks, env.transcribe);
    var summary := ProcessTranscription(env.summarize(transcript));
    var (category, title) := CategorizeAndName(env.categorize(summary, allowed), allowed);
    var name := UniqueFilename(ExistingNames(v.State()), title);
    var plan := FilePlan(transcript, summary, category, name);
    assert plan == PlanFor(v.State(), recording, length.value, allowed, env);
    CarryOut(v, plan, recording);
    aborted := false;
  }
}
